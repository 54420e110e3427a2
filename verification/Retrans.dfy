/**
 The retransmission burst detector: a tumbling window per flow with a cooldown. Entries may be
 evicted at any time.
 */
module Retrans {
  import opened Base
  import opened Config
  import opened Keys
  import Cooldown

  /** `nd_retrans_value`. */
  datatype Value = Value(firstSeen: u64, lastSeen: u64, count: nat, lastEvent: u64)

  type Table = map<FlowKey, Value>

  datatype Op =
    | Retransmit(flow: FlowKey, now: u64)
    | Evict(flow: FlowKey)

  /** The window update: stay in the window, or start a new one at `now`. */
  function Window(cfg: Config, prev: Option<Value>, now: u64): Value {
    match prev
    case None => Value(now, now, 1, 0)
    case Some(v) =>
      if now > v.firstSeen && now - v.firstSeen <= cfg.retransBurstWindowNs
      then Value(v.firstSeen, now, v.count + 1, v.lastEvent)
      else Value(now, now, 1, v.lastEvent)
  }

  predicate Fires(cfg: Config, v: Value, now: u64) {
    v.count >= cfg.retransBurstCount && CooldownOver(v.lastEvent, cfg.eventCooldownNs, now)
  }

  function Stored(cfg: Config, prev: Option<Value>, now: u64): Value {
    var v := Window(cfg, prev, now);
    if Fires(cfg, v, now) then v.(lastEvent := now) else v
  }

  function Next(cfg: Config, t: Table, op: Op): Table {
    match op
    case Retransmit(flow, now) => t[flow := Stored(cfg, Lookup(t, flow), now)]
    case Evict(flow) => t - {flow}
  }

  function Run(cfg: Config, ops: seq<Op>): Table {
    if ops == [] then map[] else Next(cfg, Run(cfg, ops[..|ops| - 1]), ops[|ops| - 1])
  }

  /** The window value a retransmit at position `i` computes. */
  function WindowAt(cfg: Config, ops: seq<Op>, i: nat): Value
    requires i < |ops| && ops[i].Retransmit?
  {
    Window(cfg, Lookup(Run(cfg, ops[..i]), ops[i].flow), ops[i].now)
  }

  /** The count reported if position `i` emits RETRANS_BURST. */
  function BurstAt(cfg: Config, ops: seq<Op>, i: nat): Option<nat>
    requires i < |ops|
  {
    if ops[i].Retransmit? && Fires(cfg, WindowAt(cfg, ops, i), ops[i].now)
    then Some(WindowAt(cfg, ops, i).count)
    else None
  }

  /** The times of all retransmits of a flow, whatever was evicted in between. */
  function Times(ops: seq<Op>, flow: FlowKey): seq<u64> {
    if ops == [] then []
    else
      var n := |ops| - 1;
      Times(ops[..n], flow) + if ops[n].Retransmit? && ops[n].flow == flow then [ops[n].now] else []
  }

  // ---------------------------------------------------------------- soundness

  /** An entry speaks about the most recent `count` retransmits of its flow. */
  ghost predicate Describes(cfg: Config, v: Value, times: seq<u64>) {
    && 1 <= v.count <= |times|
    && times[|times| - v.count] == v.firstSeen
    && times[|times| - 1] == v.lastSeen
    && (forall i :: |times| - v.count <= i < |times| ==>
          v.firstSeen <= times[i] && times[i] - v.firstSeen <= cfg.retransBurstWindowNs)
  }

  lemma WindowDescribes(cfg: Config, prev: Option<Value>, times: seq<u64>, now: u64)
    requires prev.Some? ==> Describes(cfg, prev.value, times)
    ensures Describes(cfg, Window(cfg, prev, now), times + [now])
  {
  }

  lemma {:induction false} EntryDescribes(cfg: Config, ops: seq<Op>, flow: FlowKey)
    ensures flow in Run(cfg, ops) ==> Describes(cfg, Run(cfg, ops)[flow], Times(ops, flow))
  {
    if ops != [] {
      var n := |ops| - 1;
      EntryDescribes(cfg, ops[..n], flow);
      if ops[n].Retransmit? && ops[n].flow == flow {
        WindowDescribes(cfg, Lookup(Run(cfg, ops[..n]), flow), Times(ops[..n], flow), ops[n].now);
      }
    }
  }

  /**
   Soundness over all runs, with arbitrary evictions and no assumption on the clock: a burst with
   value `c` means `c` reaches the threshold and the last `c` retransmits of the flow lie within the
   window.
   */
  lemma BurstSound(cfg: Config, ops: seq<Op>, i: nat)
    requires i < |ops| && BurstAt(cfg, ops, i).Some?
    ensures var c, times := BurstAt(cfg, ops, i).value, Times(ops[..i + 1], ops[i].flow);
            && cfg.retransBurstCount <= c <= |times|
            && forall a, b :: |times| - c <= a < |times| && |times| - c <= b < |times| ==>
                 times[b] - times[a] <= cfg.retransBurstWindowNs
  {
    var flow := ops[i].flow;
    EntryDescribes(cfg, ops[..i], flow);
    WindowDescribes(cfg, Lookup(Run(cfg, ops[..i]), flow), Times(ops[..i], flow), ops[i].now);
    assert ops[..i + 1][..i] == ops[..i];
  }

  // ---------------------------------------------------------------- completeness

  /** How many retransmits within one window length are enough for a threshold of `k`. */
  function Enough(k: nat): nat {
    if k <= 1 then 1 else 2 * k - 2
  }

  ghost predicate Undisturbed(ops: seq<Op>, lo: nat, hi: nat, flow: FlowKey)
    requires lo <= hi <= |ops|
  {
    forall i :: lo <= i < hi ==> ops[i] != Evict(flow)
  }

  predicate Increasing(times: seq<u64>) {
    forall i, j :: 0 <= i < j < |times| ==> times[i] < times[j]
  }

  ghost predicate Within(times: seq<u64>, span: nat) {
    forall i, j :: 0 <= i < |times| && 0 <= j < |times| ==> times[j] - times[i] <= span
  }

  /** Position `i` is a retransmit of `flow` whose window count reaches `k`. */
  ghost predicate Reaches(cfg: Config, ops: seq<Op>, i: nat, flow: FlowKey, k: nat)
    requires i < |ops|
  {
    ops[i].Retransmit? && ops[i].flow == flow && WindowAt(cfg, ops, i).count >= k
  }

  /**
   Where the detector stands after `m` retransmits of the segment, as long as the threshold was not
   reached: it either never restarted its window, or restarted it once within the segment, having
   lost at most `k - 2` retransmits.
   */
  ghost predicate Progress(v: Option<Value>, times: seq<u64>, k: nat) {
    && (v.Some? ==> 1 <= v.value.count)
    && (times != [] ==>
          && v.Some? && v.value.count < k
          && (|| v.value.count >= |times| + 1
              || (times[0] <= v.value.firstSeen <= times[|times| - 1] && v.value.count >= |times| - (k - 2))))
  }

  lemma ProgressStep(cfg: Config, v: Option<Value>, times: seq<u64>, now: u64, k: nat)
    requires k >= 2 && Progress(v, times, k)
    requires Increasing(times + [now]) && Within(times + [now], cfg.retransBurstWindowNs)
    requires Window(cfg, v, now).count < k
    ensures Progress(Some(Stored(cfg, v, now)), times + [now], k)
  {
    if times != [] {
      var all := times + [now];
      assert all[0] == times[0] && all[|times|] == now && all[|times| - 1] == times[|times| - 1];
      assert all[|times|] - all[0] <= cfg.retransBurstWindowNs;
    }
  }

  lemma TimesStep(ops: seq<Op>, flow: FlowKey, lo: nat, n: nat)
    requires lo <= n < |ops|
    ensures Times(ops[lo..n + 1], flow)
         == if ops[n].Retransmit? && ops[n].flow == flow then Times(ops[lo..n], flow) + [ops[n].now]
            else Times(ops[lo..n], flow)
  {
    assert ops[lo..n + 1][..n - lo] == ops[lo..n];
  }

  lemma EntryStep(cfg: Config, ops: seq<Op>, flow: FlowKey, n: nat)
    requires n < |ops| && ops[n] != Evict(flow)
    ensures Lookup(Run(cfg, ops[..n + 1]), flow)
         == if ops[n].Retransmit? && ops[n].flow == flow
            then Some(Stored(cfg, Lookup(Run(cfg, ops[..n]), flow), ops[n].now))
            else Lookup(Run(cfg, ops[..n]), flow)
  {
    assert ops[..n + 1][..n] == ops[..n];
    assert Run(cfg, ops[..n + 1]) == Next(cfg, Run(cfg, ops[..n]), ops[n]);
  }

  lemma ShorterSegment(ops: seq<Op>, flow: FlowKey, lo: nat, n: nat, span: nat)
    requires lo <= n < |ops|
    requires Increasing(Times(ops[lo..n + 1], flow)) && Within(Times(ops[lo..n + 1], flow), span)
    ensures Increasing(Times(ops[lo..n], flow)) && Within(Times(ops[lo..n], flow), span)
  {
    TimesStep(ops, flow, lo, n);
    var all, times := Times(ops[lo..n + 1], flow), Times(ops[lo..n], flow);
    assert forall i :: 0 <= i < |times| ==> times[i] == all[i];
  }

  lemma DriveStep(cfg: Config, ops: seq<Op>, flow: FlowKey, lo: nat, n: nat, k: nat)
    requires lo <= n < |ops| && k >= 2 && ops[n] != Evict(flow) && !Reaches(cfg, ops, n, flow, k)
    requires Increasing(Times(ops[lo..n + 1], flow))
    requires Within(Times(ops[lo..n + 1], flow), cfg.retransBurstWindowNs)
    requires Progress(Lookup(Run(cfg, ops[..n]), flow), Times(ops[lo..n], flow), k)
    ensures Progress(Lookup(Run(cfg, ops[..n + 1]), flow), Times(ops[lo..n + 1], flow), k)
  {
    TimesStep(ops, flow, lo, n);
    EntryStep(cfg, ops, flow, n);
    if ops[n].Retransmit? && ops[n].flow == flow {
      ProgressStep(cfg, Lookup(Run(cfg, ops[..n]), flow), Times(ops[lo..n], flow), ops[n].now, k);
    }
  }

  /** As long as no step of the segment reaches the threshold, the detector makes progress. */
  lemma {:induction false} Drive(cfg: Config, ops: seq<Op>, flow: FlowKey, lo: nat, hi: nat, k: nat)
    requires lo <= hi <= |ops| && k >= 2
    requires Undisturbed(ops, lo, hi, flow)
    requires Increasing(Times(ops[lo..hi], flow))
    requires Within(Times(ops[lo..hi], flow), cfg.retransBurstWindowNs)
    requires forall i :: lo <= i < hi ==> !Reaches(cfg, ops, i, flow, k)
    ensures Progress(Lookup(Run(cfg, ops[..hi]), flow), Times(ops[lo..hi], flow), k)
    decreases hi - lo
  {
    if lo == hi {
      EntryDescribes(cfg, ops[..hi], flow);
    } else {
      var n := hi - 1;
      ShorterSegment(ops, flow, lo, n, cfg.retransBurstWindowNs);
      Drive(cfg, ops, flow, lo, n, k);
      assert ops[n] != Evict(flow);
      DriveStep(cfg, ops, flow, lo, n, k);
    }
  }

  /**
   Completeness with its exact constant: `Enough(k)` retransmits of one flow within one window
   length, undisturbed by eviction and with strictly increasing timestamps, drive the count to the
   threshold at some step, whatever happened before. That step emits a burst unless the cooldown of
   the previous one is still running.
   */
  lemma BurstComplete(cfg: Config, ops: seq<Op>, flow: FlowKey, lo: nat, hi: nat)
    requires AllSet(cfg) && lo <= hi <= |ops|
    requires Undisturbed(ops, lo, hi, flow)
    requires Increasing(Times(ops[lo..hi], flow))
    requires Within(Times(ops[lo..hi], flow), cfg.retransBurstWindowNs)
    requires |Times(ops[lo..hi], flow)| >= Enough(cfg.retransBurstCount)
    ensures exists i :: lo <= i < hi && Reaches(cfg, ops, i, flow, cfg.retransBurstCount)
              && (BurstAt(cfg, ops, i).Some?
                  || !CooldownOver(WindowAt(cfg, ops, i).lastEvent, cfg.eventCooldownNs, ops[i].now))
  {
    var k := cfg.retransBurstCount;
    if k == 1 {
      var i := FirstOf(ops, flow, lo, hi);
      assert Reaches(cfg, ops, i, flow, k);
    } else if forall i :: lo <= i < hi ==> !Reaches(cfg, ops, i, flow, k) {
      Drive(cfg, ops, flow, lo, hi, k);
      assert false;
    }
  }

  lemma {:induction false} FirstOf(ops: seq<Op>, flow: FlowKey, lo: nat, hi: nat) returns (i: nat)
    requires lo <= hi <= |ops| && Times(ops[lo..hi], flow) != []
    ensures lo <= i < hi && ops[i].Retransmit? && ops[i].flow == flow
    decreases hi
  {
    var n := hi - 1;
    if ops[n].Retransmit? && ops[n].flow == flow {
      i := n;
    } else {
      assert ops[lo..hi][..n - lo] == ops[lo..n];
      i := FirstOf(ops, flow, lo, n);
    }
  }

  // ---------------------------------------------------------------- the constant cannot be lowered

  /**
   One retransmit at time 0, then `2k - 3` consecutive ones placed so that the window of the first
   runs out after `k - 1` of the whole.
   */
  function StragglerTime(k: nat, window: nat, i: nat): int {
    if i == 0 then 0 else window + 2 - k + i
  }

  function Straggler(k: nat, window: nat, flow: FlowKey): (ops: seq<Op>)
    requires 2 <= k && 2 * k - 4 <= window && window + k <= U64_SIZE
    ensures |ops| == 2 * k - 2
  {
    seq(2 * k - 2, i requires 0 <= i < 2 * k - 2 => Retransmit(flow, StragglerTime(k, window, i)))
  }

  lemma {:induction false} TimesOfOneFlow(ops: seq<Op>, flow: FlowKey)
    requires forall i :: 0 <= i < |ops| ==> ops[i].Retransmit? && ops[i].flow == flow
    ensures |Times(ops, flow)| == |ops|
    ensures forall i :: 0 <= i < |ops| ==> Times(ops, flow)[i] == ops[i].now
  {
    if ops != [] {
      TimesOfOneFlow(ops[..|ops| - 1], flow);
    }
  }

  /** What entry the first `n` stragglers leave. */
  predicate StragglerLeaves(v: Option<Value>, k: nat, window: nat, n: nat)
    requires k >= 1
  {
    && v.Some?
    && v.value.count == (if n <= k - 1 then n else n - k + 1)
    && v.value.firstSeen == (if n <= k - 1 then 0 else StragglerTime(k, window, k - 1))
  }

  lemma StragglerStep(cfg: Config, v: Option<Value>, n: nat)
    requires var k, w := cfg.retransBurstCount, cfg.retransBurstWindowNs;
             && 2 <= k && 2 * k - 4 <= w && w + k <= U64_SIZE && n < 2 * k - 2
             && if n == 0 then v.None? else StragglerLeaves(v, k, w, n)
    ensures var k, w := cfg.retransBurstCount, cfg.retransBurstWindowNs;
            StragglerLeaves(Some(Stored(cfg, v, StragglerTime(k, w, n))), k, w, n + 1)
  {
  }

  lemma {:induction false} StragglerEntry(cfg: Config, flow: FlowKey, n: nat)
    requires var k, w := cfg.retransBurstCount, cfg.retransBurstWindowNs;
             2 <= k && 2 * k - 4 <= w && w + k <= U64_SIZE && 1 <= n <= 2 * k - 2
    ensures var k, w := cfg.retransBurstCount, cfg.retransBurstWindowNs;
            StragglerLeaves(Lookup(Run(cfg, Straggler(k, w, flow)[..n]), flow), k, w, n)
  {
    var ops := Straggler(cfg.retransBurstCount, cfg.retransBurstWindowNs, flow);
    EntryStep(cfg, ops, flow, n - 1);
    if n == 1 {
      assert Run(cfg, ops[..0]) == map[];
    } else {
      StragglerEntry(cfg, flow, n - 1);
    }
    StragglerStep(cfg, Lookup(Run(cfg, ops[..n - 1]), flow), n - 1);
  }

  lemma StragglerTimes(k: nat, window: nat, flow: FlowKey)
    requires 2 <= k && 2 * k - 4 <= window && window + k <= U64_SIZE
    ensures var ops := Straggler(k, window, flow);
            && Increasing(Times(ops, flow))
            && |Times(ops[1..], flow)| == Enough(k) - 1
            && Within(Times(ops[1..], flow), window)
  {
    var ops := Straggler(k, window, flow);
    TimesOfOneFlow(ops, flow);
    TimesOfOneFlow(ops[1..], flow);
    var tail := Times(ops[1..], flow);
    forall i | 0 <= i < |tail| ensures tail[i] == window + 3 - k + i {
      assert tail[i] == ops[1..][i].now == ops[i + 1].now;
    }
  }

  lemma StoredCount(cfg: Config, ops: seq<Op>, i: nat)
    requires i < |ops| && ops[i].Retransmit?
    ensures var t := Run(cfg, ops[..i + 1]);
            ops[i].flow in t && t[ops[i].flow].count == WindowAt(cfg, ops, i).count
  {
    assert ops[..i + 1][..i] == ops[..i];
    assert ops[..i + 1][i] == ops[i];
  }

  lemma StragglerFalls(cfg: Config, flow: FlowKey, i: nat)
    requires var k, w := cfg.retransBurstCount, cfg.retransBurstWindowNs;
             2 <= k && 2 * k - 4 <= w && w + k <= U64_SIZE && i < 2 * k - 2
    ensures WindowAt(cfg, Straggler(cfg.retransBurstCount, cfg.retransBurstWindowNs, flow), i).count
            < cfg.retransBurstCount
  {
    var ops := Straggler(cfg.retransBurstCount, cfg.retransBurstWindowNs, flow);
    StragglerEntry(cfg, flow, i + 1);
    StoredCount(cfg, ops, i);
  }

  /**
   One retransmit fewer is not enough: for every threshold and every window that can hold
   `Enough(k) - 1` distinct timestamps and leaves room for `k - 1` more after it in 64 bits, there is
   a run, without eviction, that ends in that many retransmits within one window length and never
   reaches the threshold.
   */
  lemma OneFewerIsNotEnough(cfg: Config, flow: FlowKey)
    requires var k, w := cfg.retransBurstCount, cfg.retransBurstWindowNs;
             2 <= k && 2 * k - 4 <= w && w + k <= U64_SIZE
    ensures var k, w := cfg.retransBurstCount, cfg.retransBurstWindowNs;
            var ops := Straggler(k, w, flow);
            && Undisturbed(ops, 0, |ops|, flow)
            && Increasing(Times(ops, flow))
            && |Times(ops[1..], flow)| == Enough(k) - 1
            && Within(Times(ops[1..], flow), w)
            && forall i :: 0 <= i < |ops| ==> !Reaches(cfg, ops, i, flow, k) && BurstAt(cfg, ops, i).None?
  {
    var k, w := cfg.retransBurstCount, cfg.retransBurstWindowNs;
    var ops := Straggler(k, w, flow);
    StragglerTimes(k, w, flow);
    forall i | 0 <= i < |ops| ensures WindowAt(cfg, ops, i).count < k {
      StragglerFalls(cfg, flow, i);
    }
  }

  /** Narrower windows cannot hold that many strictly increasing timestamps at all. */
  lemma {:induction false} WindowHolds(times: seq<u64>, span: nat)
    requires Increasing(times) && Within(times, span)
    ensures |times| <= span + 1
  {
    if times != [] {
      Spread(times, |times| - 1);
      assert times[|times| - 1] - times[0] <= span;
    }
  }

  lemma {:induction false} Spread(times: seq<u64>, i: nat)
    requires Increasing(times) && i < |times|
    ensures times[i] >= times[0] + i
  {
    if i > 0 {
      Spread(times, i - 1);
    }
  }

  /** The retransmits of a run. */
  function Retransmits(ops: seq<Op>): nat {
    if ops == [] then 0 else Retransmits(ops[..|ops| - 1]) + if ops[|ops| - 1].Retransmit? then 1 else 0
  }

  /** The bursts of a run. */
  function Bursts(cfg: Config, ops: seq<Op>): nat {
    if ops == [] then 0
    else Bursts(cfg, ops[..|ops| - 1]) + if BurstAt(cfg, ops, |ops| - 1).Some? then 1 else 0
  }

  // ---------------------------------------------------------------- the cooldown

  predicate OfFlow(op: Op, flow: FlowKey) {
    op.Retransmit? && op.flow == flow
  }

  ghost predicate StrictClock(ops: seq<Op>, flow: FlowKey) {
    forall i, j :: 0 <= i < j < |ops| && OfFlow(ops[i], flow) && OfFlow(ops[j], flow) ==> ops[i].now < ops[j].now
  }

  ghost predicate NoOverflow(cfg: Config, ops: seq<Op>) {
    forall i :: 0 <= i < |ops| && ops[i].Retransmit? ==> ops[i].now + cfg.eventCooldownNs < U64_SIZE
  }

  /** What an operation means to the cooldown of a flow. */
  function MarkAt(cfg: Config, ops: seq<Op>, flow: FlowKey): nat -> Cooldown.Mark {
    (i: nat) =>
      if i >= |ops| || ops[i].flow != flow then Cooldown.Skip
      else if ops[i].Evict? then Cooldown.Reset
      else if WindowAt(cfg, ops, i).count >= cfg.retransBurstCount then Cooldown.Try(ops[i].now)
      else Cooldown.Skip
  }

  /** The event time the entry of a flow holds before an operation. */
  function EventTime(cfg: Config, ops: seq<Op>, flow: FlowKey): nat -> u64 {
    (i: nat) => if i <= |ops| && flow in Run(cfg, ops[..i]) then Run(cfg, ops[..i])[flow].lastEvent else 0
  }

  function Marks(cfg: Config, ops: seq<Op>, flow: FlowKey): seq<Cooldown.Mark> {
    Cooldown.Marks(|ops|, MarkAt(cfg, ops, flow))
  }

  lemma TimeStep(cfg: Config, ops: seq<Op>, flow: FlowKey, n: nat)
    requires n < |ops|
    ensures EventTime(cfg, ops, flow)(n + 1)
         == Cooldown.After(cfg.eventCooldownNs, MarkAt(cfg, ops, flow)(n), EventTime(cfg, ops, flow)(n))
  {
    assert ops[..n + 1][..n] == ops[..n];
  }

  /** Bursts are the events of the gate. */
  lemma BurstIsEvent(cfg: Config, ops: seq<Op>, i: nat, flow: FlowKey)
    requires i < |ops|
    ensures Cooldown.FiresAt(cfg.eventCooldownNs, Marks(cfg, ops, flow), i)
       <==> ops[i].flow == flow && BurstAt(cfg, ops, i).Some?
  {
    var at, time := MarkAt(cfg, ops, flow), EventTime(cfg, ops, flow);
    forall n: nat | n < |ops| ensures time(n + 1) == Cooldown.After(cfg.eventCooldownNs, at(n), time(n)) {
      TimeStep(cfg, ops, flow, n);
    }
    Cooldown.EventOf(cfg.eventCooldownNs, |ops|, at, time, i);
  }

  /** Position `j` is the latest burst of a flow among the first `n` operations, its entry not evicted since. */
  ghost predicate LatestBurst(cfg: Config, ops: seq<Op>, n: nat, flow: FlowKey, j: int) {
    && 0 <= j < n <= |ops|
    && ops[j].flow == flow && BurstAt(cfg, ops, j).Some?
    && forall x :: j < x < n && ops[x].flow == flow ==> ops[x].Retransmit? && BurstAt(cfg, ops, x).None?
  }

  lemma LatestBurstIsLatest(cfg: Config, ops: seq<Op>, n: nat, flow: FlowKey, j: int)
    requires n <= |ops|
    ensures LatestBurst(cfg, ops, n, flow, j)
       <==> Cooldown.Latest(cfg.eventCooldownNs, Marks(cfg, ops, flow), n, j)
  {
    forall x: nat | x < n
      ensures Cooldown.FiresAt(cfg.eventCooldownNs, Marks(cfg, ops, flow), x)
         <==> ops[x].flow == flow && BurstAt(cfg, ops, x).Some?
      ensures Marks(cfg, ops, flow)[x].Reset? <==> ops[x].flow == flow && ops[x].Evict?
    {
      BurstIsEvent(cfg, ops, x, flow);
    }
  }

  /**
   When a retransmit that reaches the threshold raises a burst: after the deadline of the latest
   remembered burst, or, with none remembered, once the machine has been up for longer than the
   cooldown.
   */
  lemma BurstExactly(cfg: Config, ops: seq<Op>, i: nat)
    requires i < |ops| && ops[i].Retransmit?
    requires Reaches(cfg, ops, i, ops[i].flow, cfg.retransBurstCount)
    ensures var flow := ops[i].flow;
            && (forall j :: LatestBurst(cfg, ops, i, flow, j) ==>
                  (BurstAt(cfg, ops, i).Some? <==> ops[i].now > Add64(ops[j].now, cfg.eventCooldownNs)))
            && ((forall j :: !LatestBurst(cfg, ops, i, flow, j)) ==>
                  (BurstAt(cfg, ops, i).Some? <==> ops[i].now > cfg.eventCooldownNs))
  {
    var flow := ops[i].flow;
    var marks := Marks(cfg, ops, flow);
    BurstIsEvent(cfg, ops, i, flow);
    Cooldown.FiresExactly(cfg.eventCooldownNs, marks, i);
    forall j
      ensures LatestBurst(cfg, ops, i, flow, j) <==> Cooldown.Latest(cfg.eventCooldownNs, marks, i, j)
    {
      LatestBurstIsLatest(cfg, ops, i, flow, j);
    }
  }

  /**
   Unless deadlines wrap and the clock runs backwards too, no burst is raised before the machine has
   been up for longer than the cooldown.
   */
  lemma BurstNeedsUptime(cfg: Config, ops: seq<Op>, i: nat)
    requires i < |ops| && BurstAt(cfg, ops, i).Some?
    requires NoOverflow(cfg, ops) || StrictClock(ops, ops[i].flow)
    ensures ops[i].now > cfg.eventCooldownNs
  {
    BurstIsEvent(cfg, ops, i, ops[i].flow);
    Cooldown.NeedsUptime(cfg.eventCooldownNs, Marks(cfg, ops, ops[i].flow), i);
  }

  /**
   Two bursts of one flow are more than the cooldown apart as long as its entry is not evicted in
   between and the deadline arithmetic does not wrap.
   */
  lemma BurstsSpaced(cfg: Config, ops: seq<Op>, i: nat, j: nat)
    requires i < j < |ops| && ops[i].flow == ops[j].flow
    requires BurstAt(cfg, ops, i).Some? && BurstAt(cfg, ops, j).Some?
    requires Undisturbed(ops, i, j, ops[i].flow) && NoOverflow(cfg, ops)
    ensures ops[j].now > ops[i].now + cfg.eventCooldownNs
  {
    BurstIsEvent(cfg, ops, i, ops[i].flow);
    BurstIsEvent(cfg, ops, j, ops[i].flow);
    Cooldown.Spaced(cfg.eventCooldownNs, Marks(cfg, ops, ops[i].flow), i, j);
  }

  // ---------------------------------------------------------------- the distance of bursts under eviction

  /**
   The distance two bursts of a flow must keep whatever is evicted. Losing the entry loses the
   cooldown, but the count has to build up again; within one window the cooldown applies, if the
   window is long enough for it at all.
   */
  function BurstGap(cfg: Config): nat {
    if cfg.eventCooldownNs + cfg.retransBurstCount <= cfg.retransBurstWindowNs
    then Min(cfg.eventCooldownNs + 1, cfg.retransBurstCount)
    else cfg.retransBurstCount
  }

  /** An entry is as old as its count: timestamps of a flow strictly increase. */
  lemma {:induction false} EntryAge(cfg: Config, ops: seq<Op>, n: nat, flow: FlowKey)
    requires n <= |ops| && StrictClock(ops, flow)
    ensures var t := Run(cfg, ops[..n]);
            flow in t ==>
              && t[flow].firstSeen + t[flow].count - 1 <= t[flow].lastSeen
              && forall j :: n <= j < |ops| && OfFlow(ops[j], flow) ==> t[flow].lastSeen < ops[j].now
  {
    if n > 0 {
      assert ops[..n][..n - 1] == ops[..n - 1];
      EntryAge(cfg, ops, n - 1, flow);
    }
  }

  /**
   What an entry says after a burst at time `at`: it still is the window of that burst and remembers
   an event since, or it has been counting from after the burst.
   */
  ghost predicate AfterBurst(cfg: Config, v: Value, at: u64) {
    || (v.firstSeen + cfg.retransBurstCount - 1 <= at <= v.lastEvent && v.lastEvent + cfg.eventCooldownNs < U64_SIZE)
    || v.lastSeen >= at + v.count
  }

  lemma {:induction false} BurstFollowed(cfg: Config, ops: seq<Op>, i: nat, n: nat)
    requires i < n <= |ops| && BurstAt(cfg, ops, i).Some?
    requires StrictClock(ops, ops[i].flow) && NoOverflow(cfg, ops)
    ensures var flow := ops[i].flow;
            flow in Run(cfg, ops[..n]) ==> AfterBurst(cfg, Run(cfg, ops[..n])[flow], ops[i].now)
    decreases n
  {
    var flow := ops[i].flow;
    assert ops[..n][..n - 1] == ops[..n - 1];
    EntryAge(cfg, ops, n - 1, flow);
    EntryAge(cfg, ops, n, flow);
    if n > i + 1 {
      BurstFollowed(cfg, ops, i, n - 1);
    }
  }

  /**
   The limit that survives eviction: two bursts of one flow keep their distance whatever is evicted,
   as long as timestamps of the flow strictly increase and deadlines do not wrap.
   */
  lemma BurstsApart(cfg: Config, ops: seq<Op>, i: nat, j: nat)
    requires i < j < |ops| && ops[i].flow == ops[j].flow
    requires BurstAt(cfg, ops, i).Some? && BurstAt(cfg, ops, j).Some?
    requires StrictClock(ops, ops[i].flow) && NoOverflow(cfg, ops)
    ensures ops[j].now - ops[i].now >= BurstGap(cfg)
  {
    BurstFollowed(cfg, ops, i, j);
    EntryAge(cfg, ops, j, ops[i].flow);
  }

  /** `n` retransmits of a flow, one nanosecond apart. */
  function Ramp(flow: FlowKey, start: nat, n: nat): (ops: seq<Op>)
    requires start + n <= U64_SIZE
    ensures |ops| == n
  {
    seq(n, i requires 0 <= i < n => Retransmit(flow, start + i))
  }

  ghost predicate RampAt(ops: seq<Op>, p: nat, flow: FlowKey, start: nat, n: nat) {
    && p + n <= |ops|
    && forall i :: p <= i < p + n ==> OfFlow(ops[i], flow) && ops[i].now == start + i - p
  }

  /** A ramp on a flow without an entry counts up, and raises its first burst when it reaches the threshold. */
  lemma {:induction false} RampEntry(cfg: Config, ops: seq<Op>, p: nat, flow: FlowKey, start: nat, n: nat)
    requires 1 <= n <= cfg.retransBurstCount <= cfg.retransBurstWindowNs + 1
    requires cfg.eventCooldownNs < start + cfg.retransBurstCount - 1
    requires RampAt(ops, p, flow, start, n) && flow !in Run(cfg, ops[..p])
    ensures var t, last := Run(cfg, ops[..p + n]), start + n - 1;
            flow in t && t[flow] == Value(start, last, n, if n == cfg.retransBurstCount then last else 0)
    ensures n == cfg.retransBurstCount ==> BurstAt(cfg, ops, p + n - 1).Some?
    decreases n
  {
    assert ops[..p + n][..p + n - 1] == ops[..p + n - 1];
    assert ops[p + n - 1].now == start + n - 1;
    if n > 1 {
      RampEntry(cfg, ops, p, flow, start, n - 1);
    }
  }

  /** The earliest time of a burst: past the first cooldown, after the threshold count of retransmits. */
  function EarliestBurst(cfg: Config): nat {
    if cfg.eventCooldownNs + 2 >= cfg.retransBurstCount then cfg.eventCooldownNs + 1 else cfg.retransBurstCount - 1
  }

  function RampStart(cfg: Config): int {
    EarliestBurst(cfg) - (cfg.retransBurstCount - 1)
  }

  ghost predicate HasRoom(cfg: Config) {
    EarliestBurst(cfg) + BurstGap(cfg) + cfg.eventCooldownNs < U64_SIZE
  }

  /** One more retransmit in the window, as soon as the cooldown is over. */
  function AfterCooldown(cfg: Config, flow: FlowKey): seq<Op>
    requires cfg.retransBurstCount >= 1 && HasRoom(cfg) && BurstGap(cfg) < cfg.retransBurstCount
  {
    Ramp(flow, RampStart(cfg), cfg.retransBurstCount)
    + [Retransmit(flow, EarliestBurst(cfg) + cfg.eventCooldownNs + 1)]
  }

  /** An eviction, and a second ramp at once. */
  function AfterEviction(cfg: Config, flow: FlowKey): seq<Op>
    requires cfg.retransBurstCount >= 1 && HasRoom(cfg) && BurstGap(cfg) == cfg.retransBurstCount
  {
    var k := cfg.retransBurstCount;
    Ramp(flow, RampStart(cfg), k) + [Evict(flow)] + Ramp(flow, EarliestBurst(cfg) + 1, k)
  }

  /** A retransmit on a full window bursts again as soon as the cooldown is over. */
  lemma BurstsAgain(cfg: Config, v: Value, now: u64)
    requires v.count == cfg.retransBurstCount && v.firstSeen < now <= v.firstSeen + cfg.retransBurstWindowNs
    requires v.lastEvent + cfg.eventCooldownNs < now
    ensures Fires(cfg, Window(cfg, Some(v), now), now)
  {
  }

  /** Two bursts of a flow at the least distance, in a run without wrapping deadlines. */
  ghost predicate AtGap(cfg: Config, ops: seq<Op>, flow: FlowKey, i: int, j: int) {
    && 0 <= i < j < |ops| && ops[i].flow == ops[j].flow == flow
    && StrictClock(ops, flow) && NoOverflow(cfg, ops)
    && BurstAt(cfg, ops, i).Some? && BurstAt(cfg, ops, j).Some? && ops[j].now - ops[i].now == BurstGap(cfg)
  }

  lemma AfterCooldownClock(cfg: Config, flow: FlowKey)
    requires cfg.retransBurstCount >= 1 && HasRoom(cfg) && BurstGap(cfg) < cfg.retransBurstCount
    ensures StrictClock(AfterCooldown(cfg, flow), flow) && NoOverflow(cfg, AfterCooldown(cfg, flow))
    ensures var ops, k := AfterCooldown(cfg, flow), cfg.retransBurstCount;
            && |ops| == k + 1 && ops[k].now - ops[k - 1].now == cfg.eventCooldownNs + 1
            && RampAt(ops, 0, flow, RampStart(cfg), k) && OfFlow(ops[k], flow)
  {
  }

  lemma AfterCooldownBursts(cfg: Config, flow: FlowKey)
    requires cfg.retransBurstCount >= 1 && HasRoom(cfg) && BurstGap(cfg) < cfg.retransBurstCount
    ensures AtGap(cfg, AfterCooldown(cfg, flow), flow, cfg.retransBurstCount - 1, cfg.retransBurstCount)
  {
    var start, k: nat := RampStart(cfg), cfg.retransBurstCount;
    var ops := AfterCooldown(cfg, flow);
    AfterCooldownClock(cfg, flow);
    assert ops[..0] == [];
    RampEntry(cfg, ops, 0, flow, start, k);
    BurstsAgain(cfg, Value(start, start + k - 1, k, start + k - 1), ops[k].now);
  }

  lemma AfterEvictionClock(cfg: Config, flow: FlowKey)
    requires cfg.retransBurstCount >= 1 && HasRoom(cfg) && BurstGap(cfg) == cfg.retransBurstCount
    ensures StrictClock(AfterEviction(cfg, flow), flow) && NoOverflow(cfg, AfterEviction(cfg, flow))
    ensures var ops, k := AfterEviction(cfg, flow), cfg.retransBurstCount;
            && |ops| == 2 * k + 1 && ops[2 * k].now - ops[k - 1].now == k
            && RampAt(ops, 0, flow, RampStart(cfg), k) && ops[k] == Evict(flow)
            && RampAt(ops, k + 1, flow, EarliestBurst(cfg) + 1, k)
            && OfFlow(ops[k - 1], flow) && OfFlow(ops[2 * k], flow)
  {
  }

  /** A ramp right after an eviction raises a burst at its end. */
  lemma RampAfterEviction(cfg: Config, ops: seq<Op>, p: nat, flow: FlowKey, start: nat)
    requires 1 <= cfg.retransBurstCount <= cfg.retransBurstWindowNs + 1 && cfg.eventCooldownNs < start
    requires p < |ops| && ops[p] == Evict(flow) && RampAt(ops, p + 1, flow, start, cfg.retransBurstCount)
    ensures BurstAt(cfg, ops, p + cfg.retransBurstCount).Some?
  {
    assert flow !in Run(cfg, ops[..p + 1]) by {
      assert ops[..p + 1][..p] == ops[..p];
    }
    RampEntry(cfg, ops, p + 1, flow, start, cfg.retransBurstCount);
  }

  lemma FirstRampBursts(cfg: Config, ops: seq<Op>, flow: FlowKey, start: nat)
    requires 1 <= cfg.retransBurstCount <= cfg.retransBurstWindowNs + 1
    requires cfg.eventCooldownNs < start + cfg.retransBurstCount - 1
    requires RampAt(ops, 0, flow, start, cfg.retransBurstCount)
    ensures BurstAt(cfg, ops, cfg.retransBurstCount - 1).Some?
  {
    assert ops[..0] == [];
    RampEntry(cfg, ops, 0, flow, start, cfg.retransBurstCount);
  }

  /** Two ramps with an eviction in between raise two bursts. */
  lemma RampsBurst(cfg: Config, ops: seq<Op>, flow: FlowKey, start: nat, again: nat)
    requires 1 <= cfg.retransBurstCount <= cfg.retransBurstWindowNs + 1
    requires cfg.eventCooldownNs < start + cfg.retransBurstCount - 1 && cfg.eventCooldownNs < again
    requires var k := cfg.retransBurstCount;
             && RampAt(ops, 0, flow, start, k)
             && k < |ops| && ops[k] == Evict(flow)
             && RampAt(ops, k + 1, flow, again, k)
    ensures var k := cfg.retransBurstCount; BurstAt(cfg, ops, k - 1).Some? && BurstAt(cfg, ops, 2 * k).Some?
  {
    var k: nat := cfg.retransBurstCount;
    FirstRampBursts(cfg, ops, flow, start);
    RampAfterEviction(cfg, ops, k, flow, again);
  }

  lemma AfterEvictionBursts(cfg: Config, flow: FlowKey)
    requires 1 <= cfg.retransBurstCount <= cfg.retransBurstWindowNs + 1
    requires HasRoom(cfg) && BurstGap(cfg) == cfg.retransBurstCount
    ensures AtGap(cfg, AfterEviction(cfg, flow), flow, cfg.retransBurstCount - 1, 2 * cfg.retransBurstCount)
  {
    AfterEvictionClock(cfg, flow);
    RampsBurst(cfg, AfterEviction(cfg, flow), flow, RampStart(cfg), EarliestBurst(cfg) + 1);
  }

  /** A burst takes the threshold count of retransmits, all of them in the window. */
  lemma BurstIsLate(cfg: Config, ops: seq<Op>, i: nat)
    requires i < |ops| && BurstAt(cfg, ops, i).Some? && cfg.retransBurstCount >= 1
    requires StrictClock(ops, ops[i].flow) && NoOverflow(cfg, ops)
    ensures ops[i].now >= EarliestBurst(cfg) && cfg.retransBurstCount <= cfg.retransBurstWindowNs + 1
  {
    var flow := ops[i].flow;
    BurstNeedsUptime(cfg, ops, i);
    EntryAge(cfg, ops, i + 1, flow);
    EntryDescribes(cfg, ops[..i + 1], flow);
    StoredCount(cfg, ops, i);
  }

  /**
   The distance cannot be improved: some run attains it, through an eviction unless the cooldown is
   the shorter one, exactly for the settings whose window can hold the threshold count and that leave
   room for two bursts and their deadlines in 64 bits.
   */
  lemma BurstGapAttained(cfg: Config, flow: FlowKey)
    requires cfg.retransBurstCount >= 1
    ensures (exists ops: seq<Op>, i, j :: AtGap(cfg, ops, flow, i, j))
       <==> cfg.retransBurstCount <= cfg.retransBurstWindowNs + 1 && HasRoom(cfg)
  {
    if cfg.retransBurstCount <= cfg.retransBurstWindowNs + 1 && HasRoom(cfg) {
      if BurstGap(cfg) < cfg.retransBurstCount {
        AfterCooldownBursts(cfg, flow);
      } else {
        AfterEvictionBursts(cfg, flow);
      }
    }
    if ops: seq<Op>, i, j :| AtGap(cfg, ops, flow, i, j) {
      BurstIsLate(cfg, ops, i);
    }
  }

  /** Before the machine has been up for the cooldown, a ramp reaches the threshold in silence. */
  lemma EarlyBurstIsSilent(cfg: Config, flow: FlowKey)
    requires 1 <= cfg.retransBurstCount <= cfg.retransBurstWindowNs + 1
    requires cfg.retransBurstCount <= cfg.eventCooldownNs
    ensures var ops := Ramp(flow, 1, cfg.retransBurstCount);
            && Reaches(cfg, ops, |ops| - 1, flow, cfg.retransBurstCount)
            && forall i :: 0 <= i < |ops| ==> BurstAt(cfg, ops, i).None?
  {
    var ops := Ramp(flow, 1, cfg.retransBurstCount);
    forall i | 0 <= i < |ops| ensures WindowAt(cfg, ops, i).count == i + 1 && BurstAt(cfg, ops, i).None? {
      EarlyEntry(cfg, flow, i);
    }
  }

  lemma {:induction false} EarlyEntry(cfg: Config, flow: FlowKey, n: nat)
    requires n < cfg.retransBurstCount <= cfg.retransBurstWindowNs + 1
    requires cfg.retransBurstCount <= cfg.eventCooldownNs
    ensures var t := Run(cfg, Ramp(flow, 1, cfg.retransBurstCount)[..n]);
            if n == 0 then t == map[] else flow in t && t[flow] == Value(1, n, n, 0)
  {
    var ops := Ramp(flow, 1, cfg.retransBurstCount);
    if n > 0 {
      assert ops[..n][..n - 1] == ops[..n - 1];
      EarlyEntry(cfg, flow, n - 1);
    }
  }
}
