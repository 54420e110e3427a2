/**
 The UDP flow table: flow generations, the long-flow event and its rate limit. Entries disappear at
 any time, deleted by the userspace collector or evicted by the map.
 */
module UdpFlows {
  import opened Base
  import opened Config
  import opened Keys
  import Cooldown

  /** `nd_udp_flow_value`. */
  datatype Flow = Flow(firstSeen: u64, lastSeen: u64, lastEvent: u64, packets: nat, bytes: nat)

  type Table = map<FlowKey, Flow>

  datatype Op =
    | Packet(key: FlowKey, now: u64, len: nat)
    | Remove(key: FlowKey)

  function NewFlow(now: u64, len: nat): Flow {
    Flow(now, now, 0, 1, len)
  }

  /** The duration reported when a packet of a known flow raises LONG_UDP_FLOW. */
  function LongUs(cfg: Config, v: Flow, now: u64): Option<nat> {
    if ElapsedUs(v.firstSeen, now) >= cfg.longUdpFlowUs && CooldownOver(v.lastEvent, cfg.eventCooldownNs, now)
    then Some(ElapsedUs(v.firstSeen, now))
    else None
  }

  function Seen(cfg: Config, v: Flow, now: u64, len: nat): Flow {
    Flow(v.firstSeen, now, if LongUs(cfg, v, now).Some? then now else v.lastEvent, v.packets + 1, v.bytes + len)
  }

  function Next(cfg: Config, t: Table, op: Op): Table {
    match op
    case Packet(key, now, len) => t[key := if key in t then Seen(cfg, t[key], now, len) else NewFlow(now, len)]
    case Remove(key) => t - {key}
  }

  function Run(cfg: Config, ops: seq<Op>): Table {
    if ops == [] then map[] else Next(cfg, Run(cfg, ops[..|ops| - 1]), ops[|ops| - 1])
  }

  /** The duration reported if position `i` emits LONG_UDP_FLOW. */
  function LongAt(cfg: Config, ops: seq<Op>, i: nat): Option<nat>
    requires i < |ops|
  {
    if ops[i].Packet? && ops[i].key in Run(cfg, ops[..i])
    then LongUs(cfg, Run(cfg, ops[..i])[ops[i].key], ops[i].now)
    else None
  }

  // ---------------------------------------------------------------- generations

  /** The packets of a flow since its entry was last removed. */
  function Generation(ops: seq<Op>, key: FlowKey): seq<Op> {
    if ops == [] then []
    else
      var n := |ops| - 1;
      if ops[n].key != key then Generation(ops[..n], key)
      else if ops[n].Remove? then []
      else Generation(ops[..n], key) + [ops[n]]
  }

  function Bytes(ops: seq<Op>): nat {
    if ops == [] then 0
    else Bytes(ops[..|ops| - 1]) + if ops[|ops| - 1].Packet? then ops[|ops| - 1].len else 0
  }

  /** An entry is the summary of its generation, and exists as long as the generation has packets. */
  lemma {:induction false} EntryIsGeneration(cfg: Config, ops: seq<Op>, key: FlowKey)
    ensures key in Run(cfg, ops) <==> Generation(ops, key) != []
    ensures forall i :: 0 <= i < |Generation(ops, key)| ==> Generation(ops, key)[i].Packet?
    ensures key in Run(cfg, ops) ==>
              var v, g := Run(cfg, ops)[key], Generation(ops, key);
              && v.packets == |g| && v.bytes == Bytes(g)
              && v.firstSeen == g[0].now && v.lastSeen == g[|g| - 1].now
  {
    if ops != [] {
      var n := |ops| - 1;
      EntryIsGeneration(cfg, ops[..n], key);
      if ops[n].key == key && ops[n].Packet? {
        var g := Generation(ops[..n], key);
        assert (g + [ops[n]])[..|g|] == g;
      }
    }
  }

  // ---------------------------------------------------------------- entries over time

  ghost predicate ClockMonotone(ops: seq<Op>) {
    forall i, j :: 0 <= i < j < |ops| && ops[i].Packet? && ops[j].Packet? ==> ops[i].now <= ops[j].now
  }

  ghost predicate NoOverflow(cfg: Config, ops: seq<Op>) {
    forall i :: 0 <= i < |ops| && ops[i].Packet? ==> ops[i].now + cfg.eventCooldownNs < U64_SIZE
  }

  predicate Ordered(cfg: Config, v: Flow) {
    && v.firstSeen <= v.lastSeen
    && (v.lastEvent == 0 || v.firstSeen + cfg.longUdpFlowUs * 1000 <= v.lastEvent <= v.lastSeen)
  }

  /** The timestamps of every live entry are in order, and no event precedes the long-flow threshold. */
  lemma {:induction false} EntriesOrdered(cfg: Config, ops: seq<Op>, key: FlowKey)
    requires AllSet(cfg) && ClockMonotone(ops)
    ensures key in Run(cfg, ops) ==>
              Ordered(cfg, Run(cfg, ops)[key])
              && exists i :: 0 <= i < |ops| && ops[i].Packet? && ops[i].now == Run(cfg, ops)[key].lastSeen
  {
    if ops != [] {
      var n := |ops| - 1;
      EntriesOrdered(cfg, ops[..n], key);
      if key in Run(cfg, ops) {
        if ops[n].Packet? && ops[n].key == key {
          assert ops[n].now == Run(cfg, ops)[key].lastSeen;
          if key in Run(cfg, ops[..n]) {
            var i :| 0 <= i < n && ops[..n][i].Packet? && ops[..n][i].now == Run(cfg, ops[..n])[key].lastSeen;
            assert ops[i].now <= ops[n].now;
          }
        } else {
          var i :| 0 <= i < n && ops[..n][i].Packet? && ops[..n][i].now == Run(cfg, ops[..n])[key].lastSeen;
          assert ops[i].now == Run(cfg, ops)[key].lastSeen;
        }
      }
    }
  }

  // ---------------------------------------------------------------- the cooldown

  /** Position `i` is a packet of the flow that finds it older than the threshold. */
  predicate LongSeen(cfg: Config, ops: seq<Op>, i: nat, key: FlowKey)
    requires i < |ops|
  {
    && ops[i].Packet? && ops[i].key == key && key in Run(cfg, ops[..i])
    && ElapsedUs(Run(cfg, ops[..i])[key].firstSeen, ops[i].now) >= cfg.longUdpFlowUs
  }

  /** What an operation means to the cooldown of a flow. */
  function MarkAt(cfg: Config, ops: seq<Op>, key: FlowKey): nat -> Cooldown.Mark {
    (i: nat) =>
      if i >= |ops| then Cooldown.Skip
      else if ops[i] == Remove(key) then Cooldown.Reset
      else if LongSeen(cfg, ops, i, key) then Cooldown.Try(ops[i].now)
      else Cooldown.Skip
  }

  /** The event time the entry of a flow holds before an operation. */
  function EventTime(cfg: Config, ops: seq<Op>, key: FlowKey): nat -> u64 {
    (i: nat) => if i <= |ops| && key in Run(cfg, ops[..i]) then Run(cfg, ops[..i])[key].lastEvent else 0
  }

  function Marks(cfg: Config, ops: seq<Op>, key: FlowKey): seq<Cooldown.Mark> {
    Cooldown.Marks(|ops|, MarkAt(cfg, ops, key))
  }

  /** The flow table follows its marks. */
  lemma FollowsMarks(cfg: Config, ops: seq<Op>, key: FlowKey)
    ensures Cooldown.Follows(cfg.eventCooldownNs, |ops|, MarkAt(cfg, ops, key), EventTime(cfg, ops, key))
  {
    var at, time := MarkAt(cfg, ops, key), EventTime(cfg, ops, key);
    forall n: nat | n < |ops| ensures time(n + 1) == Cooldown.After(cfg.eventCooldownNs, at(n), time(n)) {
      assert ops[..n + 1][..n] == ops[..n];
    }
  }

  lemma LongIsEvent(cfg: Config, ops: seq<Op>, i: nat, key: FlowKey)
    requires i < |ops|
    ensures Cooldown.FiresAt(cfg.eventCooldownNs, Marks(cfg, ops, key), i)
       <==> ops[i].key == key && LongAt(cfg, ops, i).Some?
  {
    FollowsMarks(cfg, ops, key);
    Cooldown.EventOf(cfg.eventCooldownNs, |ops|, MarkAt(cfg, ops, key), EventTime(cfg, ops, key), i);
  }

  /** Position `j` is the latest long-flow event of a key among the first `n` operations, not removed since. */
  ghost predicate LatestLong(cfg: Config, ops: seq<Op>, n: nat, key: FlowKey, j: int) {
    && 0 <= j < n <= |ops|
    && ops[j].key == key && LongAt(cfg, ops, j).Some?
    && forall x :: j < x < n && ops[x].key == key ==> ops[x].Packet? && LongAt(cfg, ops, x).None?
  }

  lemma LatestLongIsLatest(cfg: Config, ops: seq<Op>, n: nat, key: FlowKey, j: int)
    requires n <= |ops|
    ensures LatestLong(cfg, ops, n, key, j) <==> Cooldown.Latest(cfg.eventCooldownNs, Marks(cfg, ops, key), n, j)
  {
    forall x: nat | x < n
      ensures Cooldown.FiresAt(cfg.eventCooldownNs, Marks(cfg, ops, key), x)
         <==> ops[x].key == key && LongAt(cfg, ops, x).Some?
      ensures Marks(cfg, ops, key)[x].Reset? <==> ops[x] == Remove(key)
    {
      LongIsEvent(cfg, ops, x, key);
    }
  }

  /**
   When a packet that finds its flow older than the threshold raises an event: after the deadline of
   the latest remembered event, or, with none remembered, once the machine has been up for longer
   than the cooldown.
   */
  lemma LongExactly(cfg: Config, ops: seq<Op>, i: nat, key: FlowKey)
    requires i < |ops| && LongSeen(cfg, ops, i, key)
    ensures forall j :: LatestLong(cfg, ops, i, key, j) ==>
              (LongAt(cfg, ops, i).Some? <==> ops[i].now > Add64(ops[j].now, cfg.eventCooldownNs))
    ensures (forall j :: !LatestLong(cfg, ops, i, key, j)) ==>
              (LongAt(cfg, ops, i).Some? <==> ops[i].now > cfg.eventCooldownNs)
  {
    var marks := Marks(cfg, ops, key);
    LongIsEvent(cfg, ops, i, key);
    Cooldown.FiresExactly(cfg.eventCooldownNs, marks, i);
    forall j ensures LatestLong(cfg, ops, i, key, j) <==> Cooldown.Latest(cfg.eventCooldownNs, marks, i, j) {
      LatestLongIsLatest(cfg, ops, i, key, j);
    }
  }

  /** Unless deadlines wrap and the clock runs backwards too, no event precedes the end of the first cooldown. */
  lemma LongNeedsUptime(cfg: Config, ops: seq<Op>, i: nat)
    requires i < |ops| && LongAt(cfg, ops, i).Some? && (NoOverflow(cfg, ops) || ClockMonotone(ops))
    ensures ops[i].now > cfg.eventCooldownNs
  {
    LongIsEvent(cfg, ops, i, ops[i].key);
    Cooldown.NeedsUptime(cfg.eventCooldownNs, Marks(cfg, ops, ops[i].key), i);
  }

  // ---------------------------------------------------------------- how often a flow is reported

  /** The durations reported by the long-flow events of a run, in order. */
  function LongDurations(cfg: Config, ops: seq<Op>): seq<nat> {
    if ops == [] then []
    else
      var n := |ops| - 1;
      LongDurations(cfg, ops[..n]) + if LongAt(cfg, ops, n).Some? then [LongAt(cfg, ops, n).value] else []
  }

  /** Position `i` reports a flow whose entry was reported before. */
  predicate Repeats(cfg: Config, ops: seq<Op>, i: nat)
    requires i < |ops|
  {
    LongAt(cfg, ops, i).Some? && Run(cfg, ops[..i])[ops[i].key].lastEvent != 0
  }

  lemma RepeatIsLater(cfg: Config, ops: seq<Op>, i: nat)
    requires i < |ops| && LongAt(cfg, ops, i).Some?
    ensures Repeats(cfg, ops, i) <==> exists j :: LatestLong(cfg, ops, i, ops[i].key, j)
  {
    var key := ops[i].key;
    var marks := Marks(cfg, ops, key);
    FollowsMarks(cfg, ops, key);
    Cooldown.FollowsGate(cfg.eventCooldownNs, |ops|, MarkAt(cfg, ops, key), EventTime(cfg, ops, key), i);
    var j := Cooldown.LastIsLatest(cfg.eventCooldownNs, marks, i);
    if Repeats(cfg, ops, i) {
      LatestLongIsLatest(cfg, ops, i, key, j);
    } else if x :| LatestLong(cfg, ops, i, key, x) {
      LatestLongIsLatest(cfg, ops, i, key, x);
    }
  }

  /** Events that report a flow for the first time in the life of its entry. */
  function FlowsReported(cfg: Config, ops: seq<Op>): nat {
    if ops == [] then 0
    else
      var n := |ops| - 1;
      FlowsReported(cfg, ops[..n]) + if LongAt(cfg, ops, n).Some? && !Repeats(cfg, ops, n) then 1 else 0
  }

  /** Events that report a flow again. */
  function Repeated(cfg: Config, ops: seq<Op>): nat {
    if ops == [] then 0
    else
      var n := |ops| - 1;
      Repeated(cfg, ops[..n]) + if Repeats(cfg, ops, n) then 1 else 0
  }

  lemma {:induction false} EventsSplit(cfg: Config, ops: seq<Op>)
    ensures |LongDurations(cfg, ops)| == FlowsReported(cfg, ops) + Repeated(cfg, ops)
    ensures Repeated(cfg, ops) == 0 <==> forall i :: 0 <= i < |ops| ==> !Repeats(cfg, ops, i)
  {
    if ops != [] {
      var n := |ops| - 1;
      EventsSplit(cfg, ops[..n]);
      forall i | 0 <= i < n ensures Repeats(cfg, ops, i) <==> Repeats(cfg, ops[..n], i) {
        assert ops[..n][..i] == ops[..i];
      }
    }
  }

  // ---------------------------------------------------------------- flows over the threshold

  /** How long the packets of a flow span, in microseconds. */
  function SpanUs(g: seq<Op>): nat {
    if g != [] && g[0].Packet? && g[|g| - 1].Packet? then ElapsedUs(g[0].now, g[|g| - 1].now) else 0
  }

  /** By packet `i` its flow has lasted for the threshold or longer. */
  predicate Exceeds(cfg: Config, ops: seq<Op>, i: nat)
    requires i < |ops|
  {
    ops[i].Packet? && SpanUs(Generation(ops[..i + 1], ops[i].key)) >= cfg.longUdpFlowUs
  }

  /** Packet `i` takes its flow over the threshold. */
  predicate Crosses(cfg: Config, ops: seq<Op>, i: nat)
    requires i < |ops|
  {
    Exceeds(cfg, ops, i) && SpanUs(Generation(ops[..i], ops[i].key)) < cfg.longUdpFlowUs
  }

  /** Flows that exceed the threshold, a flow being the packets of a key between two removals of its entry. */
  function Exceeding(cfg: Config, ops: seq<Op>): nat {
    if ops == [] then 0
    else Exceeding(cfg, ops[..|ops| - 1]) + if Crosses(cfg, ops, |ops| - 1) then 1 else 0
  }

  /** The entry of a flow over the threshold. */
  predicate Over(cfg: Config, v: Flow) {
    ElapsedUs(v.firstSeen, v.lastSeen) >= cfg.longUdpFlowUs
  }

  /** A flow over the threshold that ended, so far, before the machine was up for longer than the cooldown. */
  predicate Silent(cfg: Config, v: Flow) {
    Over(cfg, v) && v.lastSeen <= cfg.eventCooldownNs
  }

  lemma SpanOfEntry(cfg: Config, ops: seq<Op>, key: FlowKey)
    ensures SpanUs(Generation(ops, key))
         == if key in Run(cfg, ops) then ElapsedUs(Run(cfg, ops)[key].firstSeen, Run(cfg, ops)[key].lastSeen) else 0
  {
    EntryIsGeneration(cfg, ops, key);
  }

  /** The packets the hook finds over the threshold are those of flows over the threshold. */
  lemma ExceedsIsLongSeen(cfg: Config, ops: seq<Op>, i: nat)
    requires AllSet(cfg) && i < |ops|
    ensures Exceeds(cfg, ops, i) <==> LongSeen(cfg, ops, i, ops[i].key)
  {
    SpanOfEntry(cfg, ops[..i + 1], ops[i].key);
    assert ops[..i + 1][..i] == ops[..i];
  }

  /** The duration an event reports is the time its flow spans, up to the packet that raises it. */
  lemma EventReportsSpan(cfg: Config, ops: seq<Op>, i: nat)
    requires AllSet(cfg) && i < |ops| && LongAt(cfg, ops, i).Some?
    ensures LongAt(cfg, ops, i).value == SpanUs(Generation(ops[..i + 1], ops[i].key)) >= cfg.longUdpFlowUs
  {
    SpanOfEntry(cfg, ops[..i + 1], ops[i].key);
    assert ops[..i + 1][..i] == ops[..i];
  }

  /** The spans of the flows at their events, in order. */
  function ReportedSpans(cfg: Config, ops: seq<Op>): seq<nat> {
    if ops == [] then []
    else
      var n := |ops| - 1;
      ReportedSpans(cfg, ops[..n])
      + if LongAt(cfg, ops, n).Some? then [SpanUs(Generation(ops, ops[n].key))] else []
  }

  lemma {:induction false} DurationsAreSpans(cfg: Config, ops: seq<Op>)
    requires AllSet(cfg)
    ensures LongDurations(cfg, ops) == ReportedSpans(cfg, ops)
  {
    if ops != [] {
      var n := |ops| - 1;
      DurationsAreSpans(cfg, ops[..n]);
      if LongAt(cfg, ops, n).Some? {
        EventReportsSpan(cfg, ops, n);
        assert ops[..n + 1] == ops;
      }
    }
  }

  /** No entry is ahead of the packets to come. */
  lemma EntryIsPast(cfg: Config, ops: seq<Op>, n: nat)
    requires AllSet(cfg) && ClockMonotone(ops) && n < |ops| && ops[n].Packet? && ops[n].key in Run(cfg, ops[..n])
    ensures var v := Run(cfg, ops[..n])[ops[n].key]; Ordered(cfg, v) && v.lastSeen <= ops[n].now
  {
    EntriesOrdered(cfg, ops[..n], ops[n].key);
    var i :| 0 <= i < n && ops[..n][i].Packet? && ops[..n][i].now == Run(cfg, ops[..n])[ops[n].key].lastSeen;
    assert ops[i].now <= ops[n].now;
  }

  /** An entry remembers an event exactly when its flow is over the threshold and past the first cooldown. */
  ghost predicate Reported(cfg: Config, v: Flow) {
    v.lastEvent != 0 <==> Over(cfg, v) && v.lastSeen > cfg.eventCooldownNs
  }

  lemma SeenReported(cfg: Config, v: Flow, now: u64, len: nat)
    requires AllSet(cfg) && Reported(cfg, v) && v.firstSeen <= v.lastSeen <= now
    ensures Reported(cfg, Seen(cfg, v, now, len))
    ensures var r := Seen(cfg, v, now, len);
            (if Over(cfg, r) && !Over(cfg, v) then 1 else 0) + (if Silent(cfg, v) then 1 else 0)
            == (if LongUs(cfg, v, now).Some? && v.lastEvent == 0 then 1 else 0) + if Silent(cfg, r) then 1 else 0
  {
    ElapsedMonotone(v.firstSeen, v.lastSeen, now);
  }

  lemma ElapsedMonotone(start: u64, mid: u64, end: u64)
    requires mid <= end
    ensures ElapsedUs(start, mid) <= ElapsedUs(start, end)
  {
  }

  lemma {:induction false} EntriesReported(cfg: Config, ops: seq<Op>, key: FlowKey)
    requires AllSet(cfg) && ClockMonotone(ops)
    ensures key in Run(cfg, ops) ==> Reported(cfg, Run(cfg, ops)[key])
  {
    if ops != [] {
      var n := |ops| - 1;
      EntriesReported(cfg, ops[..n], key);
      if ops[n].Packet? && ops[n].key == key && key in Run(cfg, ops[..n]) {
        EntryIsPast(cfg, ops, n);
        SeenReported(cfg, Run(cfg, ops[..n])[key], ops[n].now, ops[n].len);
      }
    }
  }

  function SilentKeys(cfg: Config, t: Table): set<FlowKey> {
    set k | k in t && Silent(cfg, t[k])
  }

  /** Silent flows whose entry was removed. */
  function SilentRemoved(cfg: Config, ops: seq<Op>): nat {
    if ops == [] then 0
    else
      var n := |ops| - 1;
      SilentRemoved(cfg, ops[..n])
      + if ops[n].Remove? && ops[n].key in SilentKeys(cfg, Run(cfg, ops[..n])) then 1 else 0
  }

  /** Flows over the threshold whose last packet came before the machine was up for longer than the cooldown. */
  function SilentFlows(cfg: Config, ops: seq<Op>): nat {
    |SilentKeys(cfg, Run(cfg, ops))| + SilentRemoved(cfg, ops)
  }

  lemma SilentUpdate(cfg: Config, t: Table, key: FlowKey, v: Flow)
    ensures |SilentKeys(cfg, t[key := v])| + (if key in SilentKeys(cfg, t) then 1 else 0)
         == |SilentKeys(cfg, t)| + if Silent(cfg, v) then 1 else 0
  {
    var before, after := SilentKeys(cfg, t), SilentKeys(cfg, t[key := v]);
    if Silent(cfg, v) {
      assert after == before + {key};
    } else {
      assert after == before - {key};
    }
  }

  lemma SilentRemove(cfg: Config, t: Table, key: FlowKey)
    ensures |SilentKeys(cfg, t - {key})| + (if key in SilentKeys(cfg, t) then 1 else 0) == |SilentKeys(cfg, t)|
  {
    assert SilentKeys(cfg, t - {key}) == SilentKeys(cfg, t) - {key};
  }

  /** One packet of a known flow: it may cross, and may be reported, or stay or become silent. */
  lemma PacketStep(cfg: Config, ops: seq<Op>)
    requires AllSet(cfg) && ClockMonotone(ops) && ops != [] && ops[|ops| - 1].Packet?
    ensures var n, key := |ops| - 1, ops[|ops| - 1].key;
            && (Crosses(cfg, ops, n) <==>
                  Over(cfg, Run(cfg, ops)[key])
                  && (key in Run(cfg, ops[..n]) ==> !Over(cfg, Run(cfg, ops[..n])[key])))
            && (if Crosses(cfg, ops, n) then 1 else 0)
               + (if key in SilentKeys(cfg, Run(cfg, ops[..n])) then 1 else 0)
               == (if LongAt(cfg, ops, n).Some? && !Repeats(cfg, ops, n) then 1 else 0)
                + if Silent(cfg, Run(cfg, ops)[key]) then 1 else 0
  {
    var n, key := |ops| - 1, ops[|ops| - 1].key;
    SpanOfEntry(cfg, ops, key);
    SpanOfEntry(cfg, ops[..n], key);
    assert ops[..n + 1] == ops;
    if key in Run(cfg, ops[..n]) {
      EntryIsPast(cfg, ops, n);
      EntriesReported(cfg, ops[..n], key);
      SeenReported(cfg, Run(cfg, ops[..n])[key], ops[n].now, ops[n].len);
    }
  }

  /** Every flow that exceeds the threshold is reported, or silent. */
  lemma {:induction false} FlowsAccounted(cfg: Config, ops: seq<Op>)
    requires AllSet(cfg) && ClockMonotone(ops)
    ensures Exceeding(cfg, ops) == FlowsReported(cfg, ops) + SilentFlows(cfg, ops)
  {
    if ops == [] {
      assert SilentKeys(cfg, map[]) == {};
    } else {
      var n := |ops| - 1;
      var t, key := Run(cfg, ops[..n]), ops[n].key;
      FlowsAccounted(cfg, ops[..n]);
      if ops[n].Packet? {
        PacketStep(cfg, ops);
        SilentUpdate(cfg, t, key, Run(cfg, ops)[key]);
      } else {
        SilentRemove(cfg, t, key);
      }
    }
  }

  /**
   The long-flow counter is described as counting the flows exceeding the threshold. Its events and
   the silent flows are those flows and the repeated events, so it does exactly when as many events
   repeat as flows are silent. No flow is silent when the threshold is longer than the cooldown.
   */
  lemma LongFlowsExactly(cfg: Config, ops: seq<Op>)
    requires AllSet(cfg) && ClockMonotone(ops)
    ensures |LongDurations(cfg, ops)| + SilentFlows(cfg, ops) == Exceeding(cfg, ops) + Repeated(cfg, ops)
    ensures |LongDurations(cfg, ops)| == Exceeding(cfg, ops) <==> Repeated(cfg, ops) == SilentFlows(cfg, ops)
    ensures cfg.longUdpFlowUs * 1000 > cfg.eventCooldownNs ==> SilentFlows(cfg, ops) == 0
  {
    FlowsAccounted(cfg, ops);
    EventsSplit(cfg, ops);
    if cfg.longUdpFlowUs * 1000 > cfg.eventCooldownNs {
      NoneSilent(cfg, ops);
    }
  }

  lemma {:induction false} NoneSilent(cfg: Config, ops: seq<Op>)
    requires AllSet(cfg) && cfg.longUdpFlowUs * 1000 > cfg.eventCooldownNs
    ensures SilentKeys(cfg, Run(cfg, ops)) == {} && SilentRemoved(cfg, ops) == 0
  {
    if ops != [] {
      NoneSilent(cfg, ops[..|ops| - 1]);
    }
  }

  // ---------------------------------------------------------------- flows that last

  /**
   A flow over the threshold and past the first cooldown at packet `i` keeps its entry and sees packet
   `j` more than a cooldown later.
   */
  ghost predicate Lasts(cfg: Config, ops: seq<Op>, i: int, j: int) {
    && 0 <= i < j < |ops| && Exceeds(cfg, ops, i) && ops[i].now > cfg.eventCooldownNs
    && ops[j].Packet? && ops[j].key == ops[i].key && ops[j].now > ops[i].now + cfg.eventCooldownNs
    && forall x :: i < x < j ==> ops[x] != Remove(ops[i].key)
  }

  /** The same from an event on. */
  ghost predicate LastsSince(cfg: Config, ops: seq<Op>, i: int, j: int) {
    && 0 <= i < j < |ops| && LongAt(cfg, ops, i).Some?
    && ops[j].Packet? && ops[j].key == ops[i].key && ops[j].now > ops[i].now + cfg.eventCooldownNs
    && forall x :: i < x < j ==> ops[x] != Remove(ops[i].key)
  }

  lemma {:induction false} AliveSince(cfg: Config, ops: seq<Op>, i: nat, n: nat)
    requires i < n <= |ops| && LongAt(cfg, ops, i).Some?
    requires forall x :: i < x < n ==> ops[x] != Remove(ops[i].key)
    ensures var key := ops[i].key;
            key in Run(cfg, ops[..n]) && Run(cfg, ops[..n])[key].firstSeen == Run(cfg, ops[..i])[key].firstSeen
    decreases n
  {
    assert ops[..n][..n - 1] == ops[..n - 1];
    if n > i + 1 {
      AliveSince(cfg, ops, i, n - 1);
    }
  }

  /** The latest event before a packet of a flow that was reported at `i` and kept its entry. */
  lemma LatestLongSince(cfg: Config, ops: seq<Op>, i: nat, n: nat) returns (j: nat)
    requires i < n <= |ops| && LongAt(cfg, ops, i).Some?
    requires forall x :: i < x < n ==> ops[x] != Remove(ops[i].key)
    ensures i <= j && LatestLong(cfg, ops, n, ops[i].key, j)
  {
    var key := ops[i].key;
    LongIsEvent(cfg, ops, i, key);
    j := Cooldown.LatestSince(cfg.eventCooldownNs, Marks(cfg, ops, key), i, n);
    LatestLongIsLatest(cfg, ops, n, key, j);
  }

  lemma LastingIsRepeat(cfg: Config, ops: seq<Op>, i: nat, j: nat) returns (r: nat)
    requires NoOverflow(cfg, ops) && LastsSince(cfg, ops, i, j)
    ensures r < |ops| && Repeats(cfg, ops, r)
  {
    var key := ops[i].key;
    var latest := LatestLongSince(cfg, ops, i, j);
    if latest > i {
      r := latest;
      var before := LatestLongSince(cfg, ops, i, r);
    } else {
      r := j;
      AliveSince(cfg, ops, i, j);
      assert LongSeen(cfg, ops, j, key);
      LongExactly(cfg, ops, j, key);
      assert ops[i].now + cfg.eventCooldownNs < U64_SIZE;
    }
    RepeatIsLater(cfg, ops, r);
  }

  lemma RepeatIsLasting(cfg: Config, ops: seq<Op>, r: nat) returns (i: int)
    requires AllSet(cfg) && NoOverflow(cfg, ops) && r < |ops| && Repeats(cfg, ops, r)
    ensures Lasts(cfg, ops, i, r)
  {
    RepeatIsLater(cfg, ops, r);
    i :| LatestLong(cfg, ops, r, ops[r].key, i);
    assert LongSeen(cfg, ops, r, ops[r].key);
    LongExactly(cfg, ops, r, ops[r].key);
    assert ops[i].Packet? && ops[i].now + cfg.eventCooldownNs < U64_SIZE;
    ExceedsIsLongSeen(cfg, ops, i);
    LongNeedsUptime(cfg, ops, i);
  }

  /** A flow over the threshold and past the first cooldown has an event no later, its entry alive since. */
  lemma EventByThen(cfg: Config, ops: seq<Op>, i: nat) returns (e: nat)
    requires AllSet(cfg) && ClockMonotone(ops) && i < |ops| && Exceeds(cfg, ops, i) && ops[i].now > cfg.eventCooldownNs
    ensures e <= i && ops[e].key == ops[i].key && LongAt(cfg, ops, e).Some? && ops[e].now <= ops[i].now
    ensures forall x :: e < x <= i ==> ops[x] != Remove(ops[i].key)
  {
    ExceedsIsLongSeen(cfg, ops, i);
    if LongAt(cfg, ops, i).Some? {
      e := i;
    } else {
      LongExactly(cfg, ops, i, ops[i].key);
      var j :| LatestLong(cfg, ops, i, ops[i].key, j);
      e := j;
    }
  }

  /** Some event repeats exactly when some flow lasts. */
  lemma RepeatsExactly(cfg: Config, ops: seq<Op>)
    requires AllSet(cfg) && ClockMonotone(ops) && NoOverflow(cfg, ops)
    ensures Repeated(cfg, ops) == 0 <==> forall i, j :: !Lasts(cfg, ops, i, j)
  {
    EventsSplit(cfg, ops);
    if i, j :| Lasts(cfg, ops, i, j) {
      var e := EventByThen(cfg, ops, i);
      assert LastsSince(cfg, ops, e, j);
      var r := LastingIsRepeat(cfg, ops, e, j);
    }
    if r :| 0 <= r < |ops| && Repeats(cfg, ops, r) {
      var i := RepeatIsLasting(cfg, ops, r);
    }
  }

  /**
   With a threshold longer than the cooldown, as by default, the counter is the flows exceeding the
   threshold exactly when none of them lasts.
   */
  lemma CountedOnceExactly(cfg: Config, ops: seq<Op>)
    requires AllSet(cfg) && ClockMonotone(ops) && NoOverflow(cfg, ops)
    requires cfg.longUdpFlowUs * 1000 > cfg.eventCooldownNs
    ensures |LongDurations(cfg, ops)| == Exceeding(cfg, ops) <==> forall i, j :: !Lasts(cfg, ops, i, j)
  {
    LongFlowsExactly(cfg, ops);
    RepeatsExactly(cfg, ops);
  }

  // ---------------------------------------------------------------- single flows

  /** One more operation. */
  lemma Snoc(cfg: Config, ops: seq<Op>, op: Op)
    requires AllSet(cfg)
    ensures var t, r := Run(cfg, ops), Run(cfg, ops + [op]);
            && r == Next(cfg, t, op)
            && LongDurations(cfg, ops + [op])
               == LongDurations(cfg, ops)
                + (if op.Packet? && op.key in t && LongUs(cfg, t[op.key], op.now).Some?
                   then [LongUs(cfg, t[op.key], op.now).value] else [])
            && Exceeding(cfg, ops + [op])
               == Exceeding(cfg, ops)
                + if op.Packet? && Over(cfg, r[op.key]) && (op.key in t ==> !Over(cfg, t[op.key])) then 1 else 0
  {
    var all := ops + [op];
    assert all[..|ops|] == ops && all[..|ops| + 1] == all;
    SpanOfEntry(cfg, all, op.key);
    SpanOfEntry(cfg, ops, op.key);
  }

  /** A flow of two packets, the threshold or more apart. */
  lemma TwoPacketFlow(cfg: Config, key: FlowKey, start: u64, end: u64)
    requires AllSet(cfg) && start + cfg.longUdpFlowUs * 1000 <= end
    ensures var ops := [Packet(key, start, 0), Packet(key, end, 0)];
            && Exceeding(cfg, ops) == 1
            && Run(cfg, ops) == map[key := Seen(cfg, NewFlow(start, 0), end, 0)]
            && LongDurations(cfg, ops) == if end > cfg.eventCooldownNs then [ElapsedUs(start, end)] else []
  {
    var a, b := Packet(key, start, 0), Packet(key, end, 0);
    Snoc(cfg, [], a);
    assert [] + [a] == [a];
    Snoc(cfg, [a], b);
    assert [a] + [b] == [a, b];
  }

  /** One flow that lasts is counted again after each cooldown. */
  lemma LastingFlowRepeats(cfg: Config, key: FlowKey)
    requires AllSet(cfg) && cfg.longUdpFlowUs * 1000 + 3 * cfg.eventCooldownNs + 2 < U64_SIZE
    ensures var first := cfg.longUdpFlowUs * 1000 + cfg.eventCooldownNs + 1;
            var ops := [Packet(key, 1, 0), Packet(key, first, 0), Packet(key, first + cfg.eventCooldownNs + 1, 0)];
            ClockMonotone(ops) && Exceeding(cfg, ops) == 1 && |LongDurations(cfg, ops)| == 2
  {
    var first := cfg.longUdpFlowUs * 1000 + cfg.eventCooldownNs + 1;
    var a, b, c := Packet(key, 1, 0), Packet(key, first, 0), Packet(key, first + cfg.eventCooldownNs + 1, 0);
    TwoPacketFlow(cfg, key, 1, first);
    Snoc(cfg, [a, b], c);
    assert [a, b] + [c] == [a, b, c];
  }

  /** A flow that ends within the first cooldown exceeds the threshold and is not counted. */
  lemma EarlyFlowIsSilent(cfg: Config, key: FlowKey)
    requires AllSet(cfg) && cfg.longUdpFlowUs * 1000 + 1 <= cfg.eventCooldownNs
    ensures var ops := [Packet(key, 1, 0), Packet(key, cfg.longUdpFlowUs * 1000 + 1, 0)];
            ClockMonotone(ops) && Exceeding(cfg, ops) == 1 && LongDurations(cfg, ops) == []
  {
    TwoPacketFlow(cfg, key, 1, cfg.longUdpFlowUs * 1000 + 1);
  }

  /** A removal cuts the packets of a key into two flows: neither exceeds the threshold, and nothing is counted. */
  lemma RemovalCutsFlow(cfg: Config, key: FlowKey, start: u64)
    requires AllSet(cfg) && start + cfg.longUdpFlowUs * 1000 < U64_SIZE
    ensures var ops := [Packet(key, start, 0), Remove(key), Packet(key, start + cfg.longUdpFlowUs * 1000, 0)];
            ClockMonotone(ops) && Exceeding(cfg, ops) == 0 && LongDurations(cfg, ops) == []
  {
    var a, b, c := Packet(key, start, 0), Remove(key), Packet(key, start + cfg.longUdpFlowUs * 1000, 0);
    Snoc(cfg, [], a);
    assert [] + [a] == [a];
    Snoc(cfg, [a], b);
    assert [a] + [b] == [a, b];
    Snoc(cfg, [a, b], c);
    assert [a, b] + [c] == [a, b, c];
  }

  // ---------------------------------------------------------------- the rate limit

  /** The distance two events of one flow key must keep. */
  function Gap(cfg: Config): nat {
    Min(cfg.eventCooldownNs + 1, cfg.longUdpFlowUs * 1000)
  }

  /** After an event, whatever entry the key has either remembers it or started no earlier. */
  lemma {:induction false} EventRemembered(cfg: Config, ops: seq<Op>, i: nat, j: nat)
    requires i < j <= |ops| && ClockMonotone(ops) && LongAt(cfg, ops, i).Some?
    requires NoOverflow(cfg, ops)
    ensures ops[i].key in Run(cfg, ops[..j]) ==>
              var v := Run(cfg, ops[..j])[ops[i].key];
              && (v.lastEvent >= ops[i].now || v.firstSeen >= ops[i].now)
              && v.lastEvent + cfg.eventCooldownNs < U64_SIZE
    decreases j
  {
    assert ops[..j][..j - 1] == ops[..j - 1];
    if j > i + 1 {
      EventRemembered(cfg, ops, i, j - 1);
      LastEventSmall(cfg, ops, j, ops[i].key);
    }
  }

  lemma {:induction false} LastEventSmall(cfg: Config, ops: seq<Op>, j: nat, key: FlowKey)
    requires j <= |ops| && NoOverflow(cfg, ops)
    ensures key in Run(cfg, ops[..j]) ==> Run(cfg, ops[..j])[key].lastEvent + cfg.eventCooldownNs < U64_SIZE
  {
    if j > 0 {
      assert ops[..j][..j - 1] == ops[..j - 1];
      LastEventSmall(cfg, ops, j - 1, key);
    }
  }

  /**
   The rate limit survives any deletion: two LONG_UDP_FLOW events of one key are at least
   `min(cooldown + 1, long_udp_flow_us * 1000)` nanoseconds apart, however packets, garbage
   collection and evictions interleave.
   */
  lemma LongFlowsSpaced(cfg: Config, ops: seq<Op>, i: nat, j: nat)
    requires i < j < |ops| && ops[i].key == ops[j].key
    requires ClockMonotone(ops) && NoOverflow(cfg, ops)
    requires LongAt(cfg, ops, i).Some? && LongAt(cfg, ops, j).Some?
    ensures ops[j].now - ops[i].now >= Gap(cfg)
  {
    EventRemembered(cfg, ops, i, j);
  }

  /** The earliest time of an event: past the first cooldown, and the threshold after the first packet. */
  function EarliestEvent(cfg: Config): nat {
    if cfg.eventCooldownNs + 1 <= cfg.longUdpFlowUs * 1000 then cfg.longUdpFlowUs * 1000 else cfg.eventCooldownNs + 1
  }

  /** A run whose two events are as early and as close as can be. */
  function Closest(cfg: Config, key: FlowKey): seq<Op>
    requires EarliestEvent(cfg) + Gap(cfg) < U64_SIZE
  {
    var first := EarliestEvent(cfg);
    var opening := [Packet(key, 0, 0), Packet(key, first, 0)];
    if cfg.eventCooldownNs + 1 <= cfg.longUdpFlowUs * 1000
    then opening + [Packet(key, first + Gap(cfg), 0)]
    else opening + [Remove(key), Packet(key, first, 0), Packet(key, first + Gap(cfg), 0)]
  }

  /** Two events of a key at the least distance, in a run without wrapping deadlines. */
  ghost predicate AtGap(cfg: Config, ops: seq<Op>, key: FlowKey, i: int, j: int) {
    && 0 <= i < j < |ops| && ops[i].key == ops[j].key == key
    && ClockMonotone(ops) && NoOverflow(cfg, ops)
    && LongAt(cfg, ops, i).Some? && LongAt(cfg, ops, j).Some? && ops[j].now - ops[i].now == Gap(cfg)
  }

  lemma ClosestStart(cfg: Config, ops: seq<Op>, key: FlowKey)
    requires AllSet(cfg) && |ops| >= 3 && EarliestEvent(cfg) < U64_SIZE
    requires ops[0] == Packet(key, 0, 0) && ops[1] == Packet(key, EarliestEvent(cfg), 0)
    ensures LongAt(cfg, ops, 1).Some?
    ensures Run(cfg, ops[..2]) == map[key := Flow(0, EarliestEvent(cfg), EarliestEvent(cfg), 2, 0)]
  {
    assert ops[..1][..0] == [] && ops[..2][..1] == ops[..1];
    assert Run(cfg, ops[..1]) == map[key := NewFlow(0, 0)];
    assert Run(cfg, ops[..2]) == Next(cfg, Run(cfg, ops[..1]), ops[1]);
  }

  lemma ClosestAgain(cfg: Config, ops: seq<Op>, key: FlowKey)
    requires AllSet(cfg) && |ops| == 5 && EarliestEvent(cfg) + Gap(cfg) < U64_SIZE && key in Run(cfg, ops[..2])
    requires cfg.eventCooldownNs + 1 > cfg.longUdpFlowUs * 1000
    requires ops[2] == Remove(key) && ops[3] == Packet(key, EarliestEvent(cfg), 0)
    requires ops[4] == Packet(key, EarliestEvent(cfg) + Gap(cfg), 0)
    ensures LongAt(cfg, ops, 4).Some?
  {
    assert ops[..3][..2] == ops[..2] && ops[..4][..3] == ops[..3];
    assert Run(cfg, ops[..3]) == Run(cfg, ops[..2]) - {key};
    assert Run(cfg, ops[..4])[key] == NewFlow(EarliestEvent(cfg), 0);
  }

  lemma ClosestEvents(cfg: Config, key: FlowKey)
    requires AllSet(cfg) && EarliestEvent(cfg) + Gap(cfg) + cfg.eventCooldownNs < U64_SIZE
    ensures AtGap(cfg, Closest(cfg, key), key, 1, |Closest(cfg, key)| - 1)
  {
    var ops := Closest(cfg, key);
    ClosestStart(cfg, ops, key);
    if |ops| == 5 {
      ClosestAgain(cfg, ops, key);
    }
  }

  /**
   The gap cannot be improved: some run attains it, through a removal when the cooldown is longer,
   exactly for the settings that leave room for two events and their deadlines in 64 bits.
   */
  lemma GapAttained(cfg: Config, key: FlowKey)
    requires AllSet(cfg)
    ensures (exists ops: seq<Op>, i, j :: AtGap(cfg, ops, key, i, j))
       <==> EarliestEvent(cfg) + Gap(cfg) + cfg.eventCooldownNs < U64_SIZE
  {
    if EarliestEvent(cfg) + Gap(cfg) + cfg.eventCooldownNs < U64_SIZE {
      ClosestEvents(cfg, key);
    }
    if ops: seq<Op>, i, j :| AtGap(cfg, ops, key, i, j) {
      LongNeedsUptime(cfg, ops, i);
      assert ElapsedUs(Run(cfg, ops[..i])[key].firstSeen, ops[i].now) >= cfg.longUdpFlowUs;
      assert ops[i].now >= EarliestEvent(cfg);
    }
  }

  /** The times at which a key raised LONG_UDP_FLOW. */
  function LongTimes(cfg: Config, ops: seq<Op>, key: FlowKey): seq<u64> {
    if ops == [] then []
    else
      var n := |ops| - 1;
      LongTimes(cfg, ops[..n], key) + if ops[n].key == key && LongAt(cfg, ops, n).Some? then [ops[n].now] else []
  }

  ghost predicate Spaced(times: seq<u64>, gap: nat) {
    forall i, j :: 0 <= i < j < |times| ==> times[j] - times[i] >= gap
  }

  lemma {:induction false} LongTimeIndex(cfg: Config, ops: seq<Op>, key: FlowKey, k: nat) returns (i: nat)
    requires k < |LongTimes(cfg, ops, key)|
    ensures i < |ops| && ops[i].key == key && LongAt(cfg, ops, i).Some? && ops[i].now == LongTimes(cfg, ops, key)[k]
  {
    var n := |ops| - 1;
    if k < |LongTimes(cfg, ops[..n], key)| {
      i := LongTimeIndex(cfg, ops[..n], key, k);
      assert ops[..n][..i] == ops[..i];
    } else {
      i := n;
    }
  }

  lemma {:induction false} LongTimesSpaced(cfg: Config, ops: seq<Op>, key: FlowKey)
    requires ClockMonotone(ops) && NoOverflow(cfg, ops)
    ensures Spaced(LongTimes(cfg, ops, key), Gap(cfg))
  {
    if ops != [] {
      var n := |ops| - 1;
      var before := LongTimes(cfg, ops[..n], key);
      LongTimesSpaced(cfg, ops[..n], key);
      if ops[n].key == key && LongAt(cfg, ops, n).Some? {
        forall k | 0 <= k < |before| ensures ops[n].now - before[k] >= Gap(cfg) {
          var i := LongTimeIndex(cfg, ops[..n], key, k);
          assert ops[..n][..i] == ops[..i];
          LongFlowsSpaced(cfg, ops, i, n);
        }
      }
    }
  }

  function CountIn(times: seq<u64>, lo: int, hi: int): nat {
    if times == [] then 0
    else CountIn(times[..|times| - 1], lo, hi) + if lo <= times[|times| - 1] <= hi then 1 else 0
  }

  lemma {:induction false} CountNarrower(times: seq<u64>, lo: int, hi: int, hi': int)
    requires hi' <= hi && forall i :: 0 <= i < |times| ==> times[i] <= hi'
    ensures CountIn(times, lo, hi) == CountIn(times, lo, hi')
  {
    if times != [] {
      CountNarrower(times[..|times| - 1], lo, hi, hi');
    }
  }

  lemma {:induction false} SpacedCount(times: seq<u64>, lo: int, hi: int, gap: nat)
    requires Spaced(times, gap) && lo <= hi
    ensures CountIn(times, lo, hi) > 0 ==> (CountIn(times, lo, hi) - 1) * gap <= hi - lo
  {
    if times != [] {
      var n := |times| - 1;
      var x, c := times[n], CountIn(times[..n], lo, hi);
      if lo <= x <= hi {
        forall i | 0 <= i < n ensures times[..n][i] <= x - gap {
          assert times[n] - times[i] >= gap;
        }
        CountNarrower(times[..n], lo, hi, x - gap);
        if c > 0 {
          CountPositive(times[..n], lo, x - gap);
          SpacedCount(times[..n], lo, x - gap, gap);
          assert c * gap == (c - 1) * gap + gap;
        }
      } else {
        SpacedCount(times[..n], lo, hi, gap);
      }
    }
  }

  lemma {:induction false} CountPositive(times: seq<u64>, lo: int, hi: int)
    requires CountIn(times, lo, hi) > 0
    ensures lo <= hi
  {
    if !(lo <= times[|times| - 1] <= hi) {
      CountPositive(times[..|times| - 1], lo, hi);
    }
  }

  lemma SpacedRate(times: seq<u64>, start: int, length: nat, gap: nat)
    requires Spaced(times, gap) && gap > 0
    ensures CountIn(times, start, start + length) <= length / gap + 1
  {
    SpacedCount(times, start, start + length, gap);
    var c := CountIn(times, start, start + length);
    if c > 0 {
      DivideAtLeast(c - 1, gap, length);
    }
  }

  lemma DivideAtLeast(q: nat, d: nat, n: nat)
    requires d > 0 && q * d <= n
    ensures q <= n / d
  {
    assert (n / d + 1) * d == n / d * d + d > n;
    if q > n / d {
      MulMonotone(n / d + 1, q, d);
    }
  }

  /** Any stretch of `length` nanoseconds holds at most `length / gap + 1` events of one key. */
  lemma LongFlowRate(cfg: Config, ops: seq<Op>, key: FlowKey, start: int, length: nat)
    requires AllSet(cfg) && ClockMonotone(ops) && NoOverflow(cfg, ops)
    ensures CountIn(LongTimes(cfg, ops, key), start, start + length) <= length / Gap(cfg) + 1
  {
    LongTimesSpaced(cfg, ops, key);
    SpacedRate(LongTimes(cfg, ops, key), start, length, Gap(cfg));
  }

  // ---------------------------------------------------------------- packet conservation

  function PacketTotal(ops: seq<Op>): nat {
    if ops == [] then 0 else PacketTotal(ops[..|ops| - 1]) + if ops[|ops| - 1].Packet? then 1 else 0
  }

  /** Packets held by entries at the moment they were removed. */
  function RemovedPackets(cfg: Config, ops: seq<Op>): nat {
    if ops == [] then 0
    else
      var n := |ops| - 1;
      var t := Run(cfg, ops[..n]);
      RemovedPackets(cfg, ops[..n]) + if ops[n].Remove? && ops[n].key in t then t[ops[n].key].packets else 0
  }

  function PacketCounts(t: Table): map<FlowKey, int> {
    map k | k in t :: t[k].packets
  }

  /** Every packet counted is held by a live flow or was held by a flow when it was removed. */
  lemma {:induction false} PacketsConserved(cfg: Config, ops: seq<Op>)
    ensures PacketTotal(ops) == MapSum(PacketCounts(Run(cfg, ops))) + RemovedPackets(cfg, ops)
  {
    if ops == [] {
      assert PacketCounts(map[]) == map[];
    } else {
      var n := |ops| - 1;
      var t, t', key := Run(cfg, ops[..n]), Run(cfg, ops), ops[n].key;
      PacketsConserved(cfg, ops[..n]);
      if ops[n].Packet? {
        MapSumUpdate(PacketCounts(t), key, t'[key].packets);
        assert PacketCounts(t') == PacketCounts(t)[key := t'[key].packets];
      } else if key in t {
        MapSumRemove(PacketCounts(t), key);
        assert PacketCounts(t') == PacketCounts(t) - {key};
      } else {
        assert t' == t;
      }
    }
  }
}
