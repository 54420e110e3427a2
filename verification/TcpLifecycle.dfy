/**
 The TCP lifecycle hook over whole runs of many sockets on many CPUs: state gauges, connection
 lifetimes and connect accounting, all from one stream of state transitions.
 */
module TcpLifecycle {
  import opened Base
  import opened Config
  import opened Keys
  import opened PerCpu

  type Sock = nat

  datatype Op =
    | Transition(cpu: nat, sk: Sock, oldState: int, newState: int, now: u64)
    | EvictLife(sk: Sock)

  /** `nd_tcp_conn_life` reduced to the field that is read back, its start time. */
  datatype State = State(mems: seq<CpuMem>, life: map<Sock, u64>)

  function DurationUs(life: map<Sock, u64>, sk: Sock, now: u64): Option<nat> {
    if sk in life then Some(ElapsedUs(life[sk], now)) else None
  }

  function NextLife(life: map<Sock, u64>, op: Op): map<Sock, u64> {
    match op
    case Transition(_, sk, oldState, newState, now) =>
      if newState == TCP_ESTABLISHED then life[sk := now]
      else if oldState == TCP_ESTABLISHED then life - {sk}
      else life
    case EvictLife(sk) => life - {sk}
  }

  function Next(cfg: Config, s: State, op: Op): (r: State)
    ensures |r.mems| == |s.mems|
  {
    var mems :=
      if op.Transition? && op.cpu < |s.mems|
      then RunWrites(s.mems, op.cpu,
                     SetStateWrites(cfg, op.oldState, op.newState, DurationUs(s.life, op.sk, op.now)))
      else s.mems;
    State(mems, NextLife(s.life, op))
  }

  function Run(cfg: Config, ncpu: nat, ops: seq<Op>): (s: State)
    ensures |s.mems| == ncpu
  {
    if ops == [] then State(Blank(ncpu), map[])
    else Next(cfg, Run(cfg, ncpu, ops[..|ops| - 1]), ops[|ops| - 1])
  }

  ghost predicate CpusExist(ncpu: nat, ops: seq<Op>) {
    forall i :: 0 <= i < |ops| && ops[i].Transition? ==> ops[i].cpu < ncpu
  }

  /** How one transition moves the cross-CPU total of a cell. */
  lemma TransitionTotal(cfg: Config, s: State, op: Op, c: Cell)
    requires op.Transition? && op.cpu < |s.mems|
    ensures
      var dur := DurationUs(s.life, op.sk, op.now);
      var closes := op.oldState == TCP_ESTABLISHED && op.newState != TCP_ESTABLISHED && dur.Some?;
      Total(Next(cfg, s, op).mems, c) == Total(s.mems, c)
        + (if 0 <= op.oldState < TCP_STATES then Effect(AddDelta(op.oldState, -1), c) else 0)
        + (if 0 <= op.newState < TCP_STATES then Effect(AddDelta(op.newState, 1), c) else 0)
        + (if c == ConnectAttemptTotal && op.newState in {TCP_SYN_SENT, TCP_SYN_RECV} then 1 else 0)
        + (if c == ClosedTotal && closes then 1 else 0)
        + (if c == ShortLivedTotal && closes && 0 < dur.value < cfg.shortTcpConnUs then 1 else 0)
        + (if c == ConnectFailedTotal && IsSynState(op.oldState) && op.newState == TCP_CLOSE then 1 else 0)
  {
    var dur := DurationUs(s.life, op.sk, op.now);
    TotalAfter(s.mems, op.cpu, SetStateWrites(cfg, op.oldState, op.newState, dur), c);
    SetStateEffect(cfg, op.oldState, op.newState, dur, c);
    LifecycleEffect(cfg, op.oldState, op.newState, dur, c);
  }

  predicate Closes(s: State, op: Op) {
    op.Transition? && op.oldState == TCP_ESTABLISHED && op.newState != TCP_ESTABLISHED && op.sk in s.life
  }

  lemma ClosedStep(cfg: Config, s: State, op: Op)
    requires op.Transition? ==> op.cpu < |s.mems|
    ensures Total(Next(cfg, s, op).mems, ClosedTotal) == Total(s.mems, ClosedTotal) + if Closes(s, op) then 1 else 0
  {
    if op.Transition? {
      TransitionTotal(cfg, s, op, ClosedTotal);
    }
  }

  lemma ShortLivedStep(cfg: Config, s: State, op: Op)
    requires op.Transition? ==> op.cpu < |s.mems|
    ensures Total(Next(cfg, s, op).mems, ShortLivedTotal)
         == Total(s.mems, ShortLivedTotal)
          + if Closes(s, op) && 0 < ElapsedUs(s.life[op.sk], op.now) < cfg.shortTcpConnUs then 1 else 0
  {
    if op.Transition? {
      TransitionTotal(cfg, s, op, ShortLivedTotal);
    }
  }

  lemma ConnectStep(cfg: Config, s: State, op: Op)
    requires op.Transition? ==> op.cpu < |s.mems|
    ensures Total(Next(cfg, s, op).mems, ConnectAttemptTotal)
         == Total(s.mems, ConnectAttemptTotal) + if Into({TCP_SYN_SENT, TCP_SYN_RECV})(op) then 1 else 0
    ensures Total(Next(cfg, s, op).mems, ConnectFailedTotal)
         == Total(s.mems, ConnectFailedTotal) + if Failures()(op) then 1 else 0
  {
    if op.Transition? {
      TransitionTotal(cfg, s, op, ConnectAttemptTotal);
      TransitionTotal(cfg, s, op, ConnectFailedTotal);
    }
  }

  // ---------------------------------------------------------------- history of the sockets

  /** The number of operations of a kind. */
  function Count(ops: seq<Op>, p: Op -> bool): nat {
    if ops == [] then 0
    else Count(ops[..|ops| - 1], p) + if p(ops[|ops| - 1]) then 1 else 0
  }

  lemma {:induction false} CountLe(ops: seq<Op>, p: Op -> bool, q: Op -> bool)
    requires forall op :: p(op) ==> q(op)
    ensures Count(ops, p) <= Count(ops, q)
  {
    if ops != [] {
      CountLe(ops[..|ops| - 1], p, q);
    }
  }

  lemma {:induction false} CountSplit(ops: seq<Op>, p: Op -> bool, q: Op -> bool, r: Op -> bool)
    requires forall op :: (p(op) <==> q(op) || r(op)) && !(q(op) && r(op))
    ensures Count(ops, p) == Count(ops, q) + Count(ops, r)
  {
    if ops != [] {
      CountSplit(ops[..|ops| - 1], p, q, r);
    }
  }

  function Into(states: set<int>): Op -> bool {
    (op: Op) => op.Transition? && op.newState in states
  }

  function OutOf(states: set<int>): Op -> bool {
    (op: Op) => op.Transition? && op.oldState in states
  }

  function Enters(states: set<int>): Op -> bool {
    (op: Op) => op.Transition? && op.newState in states && op.oldState !in states
  }

  function Leaves(states: set<int>): Op -> bool {
    (op: Op) => op.Transition? && op.oldState in states && op.newState !in states
  }

  /** The last traced state of every socket seen so far. */
  function Last(ops: seq<Op>): map<Sock, int> {
    if ops == [] then map[]
    else
      var n := |ops| - 1;
      if ops[n].Transition? then Last(ops[..n])[ops[n].sk := ops[n].newState] else Last(ops[..n])
  }

  /** The state every socket was first seen leaving. */
  function First(ops: seq<Op>): map<Sock, int> {
    if ops == [] then map[]
    else
      var n := |ops| - 1;
      if ops[n].Transition? && ops[n].sk !in First(ops[..n])
      then First(ops[..n])[ops[n].sk := ops[n].oldState]
      else First(ops[..n])
  }

  /** Each transition leaves the state the socket was last traced in. */
  predicate Chained(ops: seq<Op>) {
    ops == [] ||
    var n := |ops| - 1;
    && Chained(ops[..n])
    && (ops[n].Transition? && ops[n].sk in Last(ops[..n]) ==> ops[n].oldState == Last(ops[..n])[ops[n].sk])
  }

  function SocksIn(m: map<Sock, int>, states: set<int>): set<Sock> {
    set sk | sk in m && m[sk] in states
  }

  lemma SocksInUpdate(m: map<Sock, int>, states: set<int>, sk: Sock, st: int)
    ensures |SocksIn(m[sk := st], states)|
         == |SocksIn(m, states)|
          - (if sk in m && m[sk] in states then 1 else 0)
          + (if st in states then 1 else 0)
  {
    var before, after := SocksIn(m, states), SocksIn(m[sk := st], states);
    if st in states {
      assert after == before + {sk};
    } else {
      assert after == before - {sk};
    }
  }

  lemma {:induction false} FirstLastKeys(ops: seq<Op>)
    ensures First(ops).Keys == Last(ops).Keys
  {
    if ops != [] {
      FirstLastKeys(ops[..|ops| - 1]);
    }
  }

  /**
   Telescoping for any set of states: entries minus exits over a chained run is the number of
   sockets that are in the set now minus the number that were first seen leaving it.
   */
  lemma {:induction false} Telescope(ops: seq<Op>, states: set<int>)
    requires Chained(ops)
    ensures Count(ops, Enters(states)) - Count(ops, Leaves(states))
         == |SocksIn(Last(ops), states)| - |SocksIn(First(ops), states)|
    ensures Count(ops, Into(states)) - Count(ops, OutOf(states))
         == |SocksIn(Last(ops), states)| - |SocksIn(First(ops), states)|
  {
    if ops != [] {
      var n := |ops| - 1;
      Telescope(ops[..n], states);
      FirstLastKeys(ops[..n]);
      if ops[n].Transition? {
        SocksInUpdate(Last(ops[..n]), states, ops[n].sk, ops[n].newState);
        SocksInUpdate(First(ops[..n]), states, ops[n].sk, ops[n].oldState);
      }
    }
  }

  // ---------------------------------------------------------------- the state gauges

  lemma DeltaStep(cfg: Config, s: State, op: Op, st: int)
    requires 0 <= st < TCP_STATES && (op.Transition? ==> op.cpu < |s.mems|)
    ensures Total(Next(cfg, s, op).mems, Delta(st))
         == Total(s.mems, Delta(st)) + (if Into({st})(op) then 1 else 0) - (if OutOf({st})(op) then 1 else 0)
  {
    if op.Transition? {
      TransitionTotal(cfg, s, op, Delta(st));
    }
  }

  /** In every run the exported delta of a state is its entries minus its exits. */
  lemma {:induction false} DeltaCounts(cfg: Config, ncpu: nat, ops: seq<Op>, st: int)
    requires 0 <= st < TCP_STATES && CpusExist(ncpu, ops)
    ensures Total(Run(cfg, ncpu, ops).mems, Delta(st)) == Count(ops, Into({st})) - Count(ops, OutOf({st}))
  {
    if ops == [] {
      TotalBlank(ncpu, Delta(st));
    } else {
      var n := |ops| - 1;
      DeltaCounts(cfg, ncpu, ops[..n], st);
      DeltaStep(cfg, Run(cfg, ncpu, ops[..n]), ops[n], st);
    }
  }

  /**
   The gauge of a state, summed over CPUs: the sockets last traced in it minus the sockets first
   seen leaving it, on whatever CPUs the transitions were traced.
   */
  lemma GaugeTelescopes(cfg: Config, ncpu: nat, ops: seq<Op>, st: int)
    requires 0 <= st < TCP_STATES && CpusExist(ncpu, ops) && Chained(ops)
    ensures Total(Run(cfg, ncpu, ops).mems, Delta(st))
         == |SocksIn(Last(ops), {st})| - |SocksIn(First(ops), {st})|
  {
    DeltaCounts(cfg, ncpu, ops, st);
    Telescope(ops, {st});
  }

  lemma ClosedElsewhere(cfg: Config, s: State, t: u64)
    requires |s.mems| == 2 && s.mems[1] == map[]
    ensures Get(Next(cfg, s, Transition(1, 1, TCP_ESTABLISHED, TCP_CLOSE, t)).mems[1], Delta(TCP_ESTABLISHED)) == -1
  {
    var dur, c := DurationUs(s.life, 1, t), Delta(TCP_ESTABLISHED);
    ApplyAllGet(s.mems[1], SetStateWrites(cfg, TCP_ESTABLISHED, TCP_CLOSE, dur), c);
    SetStateEffect(cfg, TCP_ESTABLISHED, TCP_CLOSE, dur, c);
    LifecycleEffect(cfg, TCP_ESTABLISHED, TCP_CLOSE, dur, c);
  }

  lemma OpenedHere(cfg: Config, op: Op)
    requires op.Transition? && op.cpu == 0
    ensures Run(cfg, 2, [op]).mems[1] == map[]
  {
    assert [op][..0] == [];
    assert Run(cfg, 2, []) == State(Blank(2), map[]);
    assert Run(cfg, 2, [op]) == Next(cfg, Run(cfg, 2, []), op);
    assert Blank(2)[1] == map[];
  }

  /** The slot of a single CPU may well be negative: a socket can open on one and close on another. */
  lemma SlotsMayBeNegative(cfg: Config, t: u64)
    ensures var a := Transition(0, 1, TCP_SYN_SENT, TCP_ESTABLISHED, t);
            var b := Transition(1, 1, TCP_ESTABLISHED, TCP_CLOSE, t);
            var ops := [a, b];
            && Chained(ops)
            && Get(Run(cfg, 2, ops).mems[1], Delta(TCP_ESTABLISHED)) == -1
            && Total(Run(cfg, 2, ops).mems, Delta(TCP_ESTABLISHED)) == 0
  {
    var a, b := Transition(0, 1, TCP_SYN_SENT, TCP_ESTABLISHED, t), Transition(1, 1, TCP_ESTABLISHED, TCP_CLOSE, t);
    var ops := [a, b];
    assert ops[..1] == [a] && [a][..0] == [];
    assert Last([a]) == map[1 := TCP_ESTABLISHED];
    GaugeTelescopes(cfg, 2, ops, TCP_ESTABLISHED);
    assert SocksIn(Last(ops), {TCP_ESTABLISHED}) == {};
    assert SocksIn(First(ops), {TCP_ESTABLISHED}) == {} by {
      assert First([a]) == map[1 := TCP_SYN_SENT];
    }
    OpenedHere(cfg, a);
    ClosedElsewhere(cfg, Run(cfg, 2, [a]), t);
  }

  /** The sum of the gauges of the first `n` states. */
  function StateSum(mems: seq<CpuMem>, n: nat): int {
    if n == 0 then 0 else StateSum(mems, n - 1) + Total(mems, Delta(n - 1))
  }

  function Range(n: nat): set<int> {
    if n == 0 then {} else Range(n - 1) + {n - 1}
  }

  lemma {:induction false} InRange(st: int, n: nat)
    ensures st in Range(n) <==> 0 <= st < n
  {
    if n > 0 {
      InRange(st, n - 1);
    }
  }

  lemma {:induction false} StateSumCounts(cfg: Config, ncpu: nat, ops: seq<Op>, n: nat)
    requires n <= TCP_STATES && CpusExist(ncpu, ops)
    ensures StateSum(Run(cfg, ncpu, ops).mems, n) == Count(ops, Into(Range(n))) - Count(ops, OutOf(Range(n)))
  {
    if n == 0 {
      CountSame(ops, Into(Range(0)), OutOf(Range(0)));
    } else {
      StateSumCounts(cfg, ncpu, ops, n - 1);
      DeltaCounts(cfg, ncpu, ops, n - 1);
      InRange(n - 1, n - 1);
      CountSplit(ops, Into(Range(n)), Into(Range(n - 1)), Into({n - 1}));
      CountSplit(ops, OutOf(Range(n)), OutOf(Range(n - 1)), OutOf({n - 1}));
    }
  }

  /** With all states inside the array nothing is lost: the sum over all states stays zero. */
  lemma StateSumZero(cfg: Config, ncpu: nat, ops: seq<Op>)
    requires CpusExist(ncpu, ops)
    requires forall i :: 0 <= i < |ops| && ops[i].Transition? ==>
               0 <= ops[i].oldState < TCP_STATES && 0 <= ops[i].newState < TCP_STATES
    ensures StateSum(Run(cfg, ncpu, ops).mems, TCP_STATES) == 0
  {
    StateSumCounts(cfg, ncpu, ops, TCP_STATES);
    forall i | 0 <= i < |ops| && ops[i].Transition?
      ensures ops[i].oldState in Range(TCP_STATES) && ops[i].newState in Range(TCP_STATES)
    {
      InRange(ops[i].oldState, TCP_STATES);
      InRange(ops[i].newState, TCP_STATES);
    }
    CountSame(ops, Into(Range(TCP_STATES)), OutOf(Range(TCP_STATES)));
  }

  lemma {:induction false} CountSame(ops: seq<Op>, p: Op -> bool, q: Op -> bool)
    requires forall i :: 0 <= i < |ops| ==> p(ops[i]) == q(ops[i])
    ensures Count(ops, p) == Count(ops, q)
  {
    if ops != [] {
      CountSame(ops[..|ops| - 1], p, q);
    }
  }

  // ---------------------------------------------------------------- connection lifetimes

  /** Entries evicted while a connection was still tracked. */
  function Evicted(cfg: Config, ncpu: nat, ops: seq<Op>): nat {
    if ops == [] then 0
    else
      var n := |ops| - 1;
      Evicted(cfg, ncpu, ops[..n])
      + if ops[n].EvictLife? && ops[n].sk in Run(cfg, ncpu, ops[..n]).life then 1 else 0
  }

  /** Transitions into ESTABLISHED that replaced an entry already there. */
  function Replaced(cfg: Config, ncpu: nat, ops: seq<Op>): nat {
    if ops == [] then 0
    else
      var n := |ops| - 1;
      Replaced(cfg, ncpu, ops[..n])
      + if Into({TCP_ESTABLISHED})(ops[n]) && ops[n].sk in Run(cfg, ncpu, ops[..n]).life then 1 else 0
  }

  /** Conservation in every run: each entry written was closed, evicted, replaced or is still live. */
  lemma {:induction false} LifeConserved(cfg: Config, ncpu: nat, ops: seq<Op>)
    requires CpusExist(ncpu, ops)
    ensures var s := Run(cfg, ncpu, ops);
            Count(ops, Into({TCP_ESTABLISHED}))
            == Total(s.mems, ClosedTotal) + |s.life| + Evicted(cfg, ncpu, ops) + Replaced(cfg, ncpu, ops)
  {
    if ops == [] {
      TotalBlank(ncpu, ClosedTotal);
    } else {
      var n := |ops| - 1;
      var s, op := Run(cfg, ncpu, ops[..n]), ops[n];
      LifeConserved(cfg, ncpu, ops[..n]);
      ClosedStep(cfg, s, op);
      LifeSize(s.life, op.sk, if op.Transition? then op.now else 0);
    }
  }

  lemma LifeSize(life: map<Sock, u64>, sk: Sock, t: u64)
    ensures |life - {sk}| == |life| - (if sk in life then 1 else 0)
    ensures |life[sk := t]| == |life| + (if sk in life then 0 else 1)
  {
    assert |life| == |life.Keys| && |life - {sk}| == |(life - {sk}).Keys| && |life[sk := t]| == |life[sk := t].Keys|;
    assert (life - {sk}).Keys == life.Keys - {sk};
    assert life[sk := t].Keys == life.Keys + {sk};
  }

  predicate IsEviction(op: Op) {
    op.EvictLife?
  }

  /** A tracked connection is ESTABLISHED; without eviction the converse holds too. */
  lemma {:induction false} LifeIsEstablished(cfg: Config, ncpu: nat, ops: seq<Op>)
    requires Chained(ops)
    ensures Run(cfg, ncpu, ops).life.Keys <= SocksIn(Last(ops), {TCP_ESTABLISHED})
    ensures Count(ops, IsEviction) == 0 ==>
              Run(cfg, ncpu, ops).life.Keys == SocksIn(Last(ops), {TCP_ESTABLISHED})
  {
    if ops != [] {
      LifeIsEstablished(cfg, ncpu, ops[..|ops| - 1]);
    }
  }

  /** When each socket last entered ESTABLISHED. */
  function LastEntry(ops: seq<Op>): map<Sock, u64> {
    if ops == [] then map[]
    else
      var n := |ops| - 1;
      if Into({TCP_ESTABLISHED})(ops[n]) then LastEntry(ops[..n])[ops[n].sk := ops[n].now] else LastEntry(ops[..n])
  }

  /** The lifetime a close reports is measured from the latest entry into ESTABLISHED. */
  lemma {:induction false} LifeSinceLastEntry(cfg: Config, ncpu: nat, ops: seq<Op>, sk: Sock)
    requires sk in Run(cfg, ncpu, ops).life
    ensures sk in LastEntry(ops) && Run(cfg, ncpu, ops).life[sk] == LastEntry(ops)[sk]
  {
    var n := |ops| - 1;
    if sk in Run(cfg, ncpu, ops[..n]).life {
      LifeSinceLastEntry(cfg, ncpu, ops[..n], sk);
    }
  }

  /** A transition from ESTABLISHED to itself on a socket without an entry. */
  function SelfCreated(cfg: Config, ncpu: nat, ops: seq<Op>): nat {
    if ops == [] then 0
    else
      var n := |ops| - 1;
      SelfCreated(cfg, ncpu, ops[..n])
      + if && ops[n].Transition? && ops[n].oldState == ops[n].newState == TCP_ESTABLISHED
           && ops[n].sk !in Run(cfg, ncpu, ops[..n]).life
        then 1 else 0
  }

  lemma {:induction false} WrittenOrReplaced(cfg: Config, ncpu: nat, ops: seq<Op>)
    requires Chained(ops)
    ensures Count(ops, Into({TCP_ESTABLISHED}))
         == Count(ops, Enters({TCP_ESTABLISHED})) + SelfCreated(cfg, ncpu, ops) + Replaced(cfg, ncpu, ops)
  {
    if ops != [] {
      var n := |ops| - 1;
      WrittenOrReplaced(cfg, ncpu, ops[..n]);
      LifeIsEstablished(cfg, ncpu, ops[..n]);
    }
  }

  /**
   Connections entering ESTABLISHED since attach are closed, still tracked or evicted. For chained
   runs this holds exactly when no ESTABLISHED to ESTABLISHED transition created an entry.
   */
  lemma ConnectionsConserved(cfg: Config, ncpu: nat, ops: seq<Op>)
    requires CpusExist(ncpu, ops) && Chained(ops)
    ensures var s := Run(cfg, ncpu, ops);
            Count(ops, Enters({TCP_ESTABLISHED})) == Total(s.mems, ClosedTotal) + |s.life| + Evicted(cfg, ncpu, ops)
            <==> SelfCreated(cfg, ncpu, ops) == 0
  {
    LifeConserved(cfg, ncpu, ops);
    WrittenOrReplaced(cfg, ncpu, ops);
  }

  /**
   Without eviction the ESTABLISHED gauge is the number of tracked connections minus the sockets
   that were established before the collector was attached and have been seen leaving.
   */
  lemma EstablishedGauge(cfg: Config, ncpu: nat, ops: seq<Op>)
    requires CpusExist(ncpu, ops) && Chained(ops) && Count(ops, IsEviction) == 0
    ensures var s := Run(cfg, ncpu, ops);
            Total(s.mems, Delta(TCP_ESTABLISHED)) == |s.life| - |SocksIn(First(ops), {TCP_ESTABLISHED})|
  {
    GaugeTelescopes(cfg, ncpu, ops, TCP_ESTABLISHED);
    LifeIsEstablished(cfg, ncpu, ops);
    assert |Run(cfg, ncpu, ops).life| == |Run(cfg, ncpu, ops).life.Keys|;
  }

  // ---------------------------------------------------------------- what closed_total leaves out

  /** Transitions that leave ESTABLISHED on a socket without an entry. */
  function Untracked(cfg: Config, ncpu: nat, ops: seq<Op>): nat {
    if ops == [] then 0
    else
      var n := |ops| - 1;
      Untracked(cfg, ncpu, ops[..n])
      + if Leaves({TCP_ESTABLISHED})(ops[n]) && ops[n].sk !in Run(cfg, ncpu, ops[..n]).life then 1 else 0
  }

  lemma {:induction false} ClosedAreTracked(cfg: Config, ncpu: nat, ops: seq<Op>)
    requires CpusExist(ncpu, ops)
    ensures Count(ops, Leaves({TCP_ESTABLISHED}))
         == Total(Run(cfg, ncpu, ops).mems, ClosedTotal) + Untracked(cfg, ncpu, ops)
  {
    if ops == [] {
      TotalBlank(ncpu, ClosedTotal);
    } else {
      var n := |ops| - 1;
      ClosedAreTracked(cfg, ncpu, ops[..n]);
      ClosedStep(cfg, Run(cfg, ncpu, ops[..n]), ops[n]);
    }
  }

  /** The latest operation on a socket. */
  function Latest(ops: seq<Op>, sk: Sock): Option<Op> {
    if ops == [] then None
    else if ops[|ops| - 1].sk == sk then Some(ops[|ops| - 1])
    else Latest(ops[..|ops| - 1], sk)
  }

  /** The socket was last seen entering ESTABLISHED, and its entry was not evicted since. */
  predicate SeenEntering(ops: seq<Op>, sk: Sock) {
    Latest(ops, sk).Some? && Into({TCP_ESTABLISHED})(Latest(ops, sk).value)
  }

  /** Which connections are tracked, in terms of the history, with any evictions. */
  lemma {:induction false} TrackedIsSeenEntering(cfg: Config, ncpu: nat, ops: seq<Op>, sk: Sock)
    requires Chained(ops)
    ensures sk in Run(cfg, ncpu, ops).life <==> SeenEntering(ops, sk)
  {
    if ops != [] {
      var n := |ops| - 1;
      TrackedIsSeenEntering(cfg, ncpu, ops[..n], sk);
      LifeIsEstablished(cfg, ncpu, ops[..n]);
    }
  }

  /** No connection leaves ESTABLISHED that was not seen entering it. */
  ghost predicate AllSeenEntering(ops: seq<Op>) {
    forall i :: 0 <= i < |ops| && Leaves({TCP_ESTABLISHED})(ops[i]) ==> SeenEntering(ops[..i], ops[i].sk)
  }

  lemma {:induction false} NoneUntracked(cfg: Config, ncpu: nat, ops: seq<Op>)
    requires Chained(ops)
    ensures Untracked(cfg, ncpu, ops) == 0 <==> AllSeenEntering(ops)
  {
    if ops != [] {
      var n := |ops| - 1;
      NoneUntracked(cfg, ncpu, ops[..n]);
      TrackedIsSeenEntering(cfg, ncpu, ops[..n], ops[n].sk);
      assert AllSeenEntering(ops) ==> AllSeenEntering(ops[..n]) by {
        forall i | 0 <= i < n && AllSeenEntering(ops) && Leaves({TCP_ESTABLISHED})(ops[i])
          ensures SeenEntering(ops[..n][..i], ops[..n][i].sk)
        {
          assert ops[..n][..i] == ops[..i];
        }
      }
      if AllSeenEntering(ops[..n]) && (Leaves({TCP_ESTABLISHED})(ops[n]) ==> SeenEntering(ops[..n], ops[n].sk)) {
        forall i | 0 <= i < |ops| && Leaves({TCP_ESTABLISHED})(ops[i]) ensures SeenEntering(ops[..i], ops[i].sk) {
          if i < n {
            assert ops[..n][i] == ops[i] && ops[..n][..i] == ops[..i];
          }
        }
      }
    }
  }

  /**
   The closed counter is described as counting connections leaving ESTABLISHED. For chained runs,
   with any evictions, it does so exactly when each of them was seen entering ESTABLISHED and has not
   been evicted since; otherwise it counts fewer.
   */
  lemma ClosedAreLeavers(cfg: Config, ncpu: nat, ops: seq<Op>)
    requires CpusExist(ncpu, ops) && Chained(ops)
    ensures var closed := Total(Run(cfg, ncpu, ops).mems, ClosedTotal);
            && closed <= Count(ops, Leaves({TCP_ESTABLISHED}))
            && (closed == Count(ops, Leaves({TCP_ESTABLISHED})) <==> AllSeenEntering(ops))
  {
    ClosedAreTracked(cfg, ncpu, ops);
    NoneUntracked(cfg, ncpu, ops);
  }

  /**
   How many it misses: the sockets first seen leaving ESTABLISHED and the evicted entries, less the
   entries a self-transition created and the sockets in ESTABLISHED that are not tracked.
   */
  lemma ClosedDeficit(cfg: Config, ncpu: nat, ops: seq<Op>)
    requires CpusExist(ncpu, ops) && Chained(ops)
    ensures var s, est := Run(cfg, ncpu, ops), {TCP_ESTABLISHED};
            && Count(ops, Leaves(est)) - Total(s.mems, ClosedTotal)
               == |SocksIn(First(ops), est)| + Evicted(cfg, ncpu, ops) - SelfCreated(cfg, ncpu, ops)
                - (|SocksIn(Last(ops), est)| - |s.life|)
            && (Count(ops, IsEviction) == 0 ==>
                  Count(ops, Leaves(est)) - Total(s.mems, ClosedTotal)
                  == |SocksIn(First(ops), est)| - SelfCreated(cfg, ncpu, ops))
  {
    LifeConserved(cfg, ncpu, ops);
    WrittenOrReplaced(cfg, ncpu, ops);
    Telescope(ops, {TCP_ESTABLISHED});
    LifeIsEstablished(cfg, ncpu, ops);
    assert |Run(cfg, ncpu, ops).life| == |Run(cfg, ncpu, ops).life.Keys|;
    NothingEvicted(cfg, ncpu, ops);
  }

  lemma {:induction false} NothingEvicted(cfg: Config, ncpu: nat, ops: seq<Op>)
    ensures Evicted(cfg, ncpu, ops) <= Count(ops, IsEviction)
  {
    if ops != [] {
      NothingEvicted(cfg, ncpu, ops[..|ops| - 1]);
    }
  }

  /** A connection established before attach leaves ESTABLISHED and is not counted. */
  lemma EarlierConnectionIsNotClosed(cfg: Config, t: u64)
    ensures var ops := [Transition(0, 1, TCP_ESTABLISHED, TCP_CLOSE, t)];
            && Chained(ops) && Count(ops, Leaves({TCP_ESTABLISHED})) == 1
            && Total(Run(cfg, 1, ops).mems, ClosedTotal) == 0
  {
    var ops := [Transition(0, 1, TCP_ESTABLISHED, TCP_CLOSE, t)];
    assert ops[..0] == [];
    ClosedAreTracked(cfg, 1, ops);
  }

  // ---------------------------------------------------------------- short-lived connections

  /** When each socket was last seen entering ESTABLISHED from another state. */
  function LastEnter(ops: seq<Op>): map<Sock, u64> {
    if ops == [] then map[]
    else
      var n := |ops| - 1;
      if Enters({TCP_ESTABLISHED})(ops[n]) then LastEnter(ops[..n])[ops[n].sk := ops[n].now] else LastEnter(ops[..n])
  }

  /** A connection seen entering ESTABLISHED leaves it after less than `us` microseconds. */
  predicate Short(ops: seq<Op>, i: nat, us: nat)
    requires i < |ops|
  {
    && Leaves({TCP_ESTABLISHED})(ops[i]) && ops[i].sk in LastEnter(ops[..i])
    && ElapsedUs(LastEnter(ops[..i])[ops[i].sk], ops[i].now) < us
  }

  /** A connection not evicted since it was seen entering leaves, at least a microsecond but less than `us` later. */
  predicate Timed(ops: seq<Op>, i: nat, us: nat)
    requires i < |ops|
  {
    && Leaves({TCP_ESTABLISHED})(ops[i]) && SeenEntering(ops[..i], ops[i].sk) && ops[i].sk in LastEntry(ops[..i])
    && 0 < ElapsedUs(LastEntry(ops[..i])[ops[i].sk], ops[i].now) < us
  }

  function Shorter(ops: seq<Op>, us: nat): nat {
    if ops == [] then 0 else Shorter(ops[..|ops| - 1], us) + if Short(ops, |ops| - 1, us) then 1 else 0
  }

  function TimedShorter(ops: seq<Op>, us: nat): nat {
    if ops == [] then 0 else TimedShorter(ops[..|ops| - 1], us) + if Timed(ops, |ops| - 1, us) then 1 else 0
  }

  /** Short connections that are not timed. */
  function Missed(ops: seq<Op>, us: nat): nat {
    if ops == [] then 0
    else Missed(ops[..|ops| - 1], us) + if Short(ops, |ops| - 1, us) && !Timed(ops, |ops| - 1, us) then 1 else 0
  }

  /** Timed connections that are not short: a self-transition restarted their time. */
  function Restarted(ops: seq<Op>, us: nat): nat {
    if ops == [] then 0
    else Restarted(ops[..|ops| - 1], us) + if Timed(ops, |ops| - 1, us) && !Short(ops, |ops| - 1, us) then 1 else 0
  }

  lemma {:induction false} ShorterSplit(ops: seq<Op>, us: nat)
    ensures TimedShorter(ops, us) + Missed(ops, us) == Shorter(ops, us) + Restarted(ops, us)
  {
    if ops != [] {
      ShorterSplit(ops[..|ops| - 1], us);
    }
  }

  /** A close is measured from the latest entry of its socket. */
  lemma ClosesIsTimed(cfg: Config, ncpu: nat, ops: seq<Op>)
    requires ops != [] && Chained(ops)
    ensures var n := |ops| - 1;
            var s := Run(cfg, ncpu, ops[..n]);
            Timed(ops, n, cfg.shortTcpConnUs)
            <==> Closes(s, ops[n]) && 0 < ElapsedUs(s.life[ops[n].sk], ops[n].now) < cfg.shortTcpConnUs
  {
    var n := |ops| - 1;
    var s, sk := Run(cfg, ncpu, ops[..n]), ops[n].sk;
    TrackedIsSeenEntering(cfg, ncpu, ops[..n], sk);
    if sk in s.life {
      LifeSinceLastEntry(cfg, ncpu, ops[..n], sk);
    }
  }

  /** The short-lived counter counts the timed connections, in chained runs with any evictions. */
  lemma {:induction false} ShortLivedAreTimed(cfg: Config, ncpu: nat, ops: seq<Op>)
    requires CpusExist(ncpu, ops) && Chained(ops)
    ensures Total(Run(cfg, ncpu, ops).mems, ShortLivedTotal) == TimedShorter(ops, cfg.shortTcpConnUs)
  {
    if ops == [] {
      TotalBlank(ncpu, ShortLivedTotal);
    } else {
      var n := |ops| - 1;
      ShortLivedAreTimed(cfg, ncpu, ops[..n]);
      ShortLivedStep(cfg, Run(cfg, ncpu, ops[..n]), ops[n]);
      ClosesIsTimed(cfg, ncpu, ops);
    }
  }

  /** No transition from ESTABLISHED to itself. */
  ghost predicate NoSelfTransition(ops: seq<Op>) {
    forall i :: 0 <= i < |ops| && ops[i].Transition? ==> !(ops[i].oldState == ops[i].newState == TCP_ESTABLISHED)
  }

  lemma {:induction false} EntriesAreEnters(ops: seq<Op>)
    requires NoSelfTransition(ops)
    ensures LastEntry(ops) == LastEnter(ops)
  {
    if ops != [] {
      EntriesAreEnters(ops[..|ops| - 1]);
    }
  }

  lemma {:induction false} NoneRestarted(ops: seq<Op>, us: nat)
    requires NoSelfTransition(ops)
    ensures Restarted(ops, us) == 0
  {
    if ops != [] {
      NoneRestarted(ops[..|ops| - 1], us);
      EntriesAreEnters(ops[..|ops| - 1]);
    }
  }

  lemma {:induction false} NoneMissed(ops: seq<Op>, us: nat)
    ensures Missed(ops, us) == 0 <==> forall i :: 0 <= i < |ops| && Short(ops, i, us) ==> Timed(ops, i, us)
  {
    if ops != [] {
      var n := |ops| - 1;
      NoneMissed(ops[..n], us);
      forall i | 0 <= i < n
        ensures Short(ops, i, us) <==> Short(ops[..n], i, us)
        ensures Timed(ops, i, us) <==> Timed(ops[..n], i, us)
      {
        assert ops[..n][..i] == ops[..i];
      }
    }
  }

  /**
   The short-lived counter is described as counting connections shorter than the threshold. For
   chained runs with any evictions it differs by the short connections that are not timed, which it
   misses, and those whose time a self-transition restarted, which it adds. Without self-transitions
   it never adds any, and counts all exactly when every short connection was not evicted since it was
   seen entering and lived for a microsecond at least.
   */
  lemma ShortLivedAreShorter(cfg: Config, ncpu: nat, ops: seq<Op>)
    requires CpusExist(ncpu, ops) && Chained(ops)
    ensures var short, us := Total(Run(cfg, ncpu, ops).mems, ShortLivedTotal), cfg.shortTcpConnUs;
            && short + Missed(ops, us) == Shorter(ops, us) + Restarted(ops, us)
            && (short == Shorter(ops, us) <==> Missed(ops, us) == Restarted(ops, us))
            && (NoSelfTransition(ops) ==>
                  && short <= Shorter(ops, us)
                  && (short == Shorter(ops, us)
                      <==> forall i :: 0 <= i < |ops| && Short(ops, i, us) ==> Timed(ops, i, us)))
  {
    ShortLivedAreTimed(cfg, ncpu, ops);
    ShorterSplit(ops, cfg.shortTcpConnUs);
    NoneMissed(ops, cfg.shortTcpConnUs);
    if NoSelfTransition(ops) {
      NoneRestarted(ops, cfg.shortTcpConnUs);
    }
  }

  /** One more transition of the only socket. */
  lemma ShorterSnoc(ops: seq<Op>, op: Op, us: nat)
    ensures var all, leaves := ops + [op], Leaves({TCP_ESTABLISHED})(op);
            && LastEnter(all)
               == (if Enters({TCP_ESTABLISHED})(op) then LastEnter(ops)[op.sk := op.now] else LastEnter(ops))
            && LastEntry(all)
               == (if Into({TCP_ESTABLISHED})(op) then LastEntry(ops)[op.sk := op.now] else LastEntry(ops))
            && Latest(all, op.sk) == Some(op)
            && Last(all) == (if op.Transition? then Last(ops)[op.sk := op.newState] else Last(ops))
            && (Chained(all) <==>
                  Chained(ops) && (op.Transition? && op.sk in Last(ops) ==> op.oldState == Last(ops)[op.sk]))
            && Shorter(all, us)
               == Shorter(ops, us)
                + (if leaves && op.sk in LastEnter(ops) && ElapsedUs(LastEnter(ops)[op.sk], op.now) < us then 1 else 0)
            && TimedShorter(all, us)
               == TimedShorter(ops, us)
                + if leaves && SeenEntering(ops, op.sk) && op.sk in LastEntry(ops)
                     && 0 < ElapsedUs(LastEntry(ops)[op.sk], op.now) < us then 1 else 0
  {
    assert (ops + [op])[..|ops|] == ops;
  }

  /** A connection that closes at the time it was established is shorter than any threshold and not counted. */
  lemma InstantCloseIsNotShort(cfg: Config, t: u64)
    requires AllSet(cfg)
    ensures var ops := [Transition(0, 1, TCP_SYN_SENT, TCP_ESTABLISHED, t),
                        Transition(0, 1, TCP_ESTABLISHED, TCP_CLOSE, t)];
            && Chained(ops) && Shorter(ops, cfg.shortTcpConnUs) == 1
            && Total(Run(cfg, 1, ops).mems, ShortLivedTotal) == 0
  {
    var us := cfg.shortTcpConnUs;
    var a, b := Transition(0, 1, TCP_SYN_SENT, TCP_ESTABLISHED, t), Transition(0, 1, TCP_ESTABLISHED, TCP_CLOSE, t);
    ShorterSnoc([], a, us);
    assert [] + [a] == [a];
    ShorterSnoc([a], b, us);
    assert [a] + [b] == [a, b];
    ShortLivedAreTimed(cfg, 1, [a, b]);
  }

  /** A connection whose entry is evicted is not counted however short it is. */
  lemma EvictedConnectionIsNotShort(cfg: Config, t: u64)
    requires cfg.shortTcpConnUs > 5 && t + 5000 < U64_SIZE
    ensures var ops := [Transition(0, 1, TCP_SYN_SENT, TCP_ESTABLISHED, t), EvictLife(1),
                        Transition(0, 1, TCP_ESTABLISHED, TCP_CLOSE, t + 5000)];
            && Chained(ops) && NoSelfTransition(ops) && Shorter(ops, cfg.shortTcpConnUs) == 1
            && Total(Run(cfg, 1, ops).mems, ShortLivedTotal) == 0
  {
    var us := cfg.shortTcpConnUs;
    var a, b := Transition(0, 1, TCP_SYN_SENT, TCP_ESTABLISHED, t), EvictLife(1);
    var c := Transition(0, 1, TCP_ESTABLISHED, TCP_CLOSE, t + 5000);
    ShorterSnoc([], a, us);
    assert [] + [a] == [a];
    ShorterSnoc([a], b, us);
    assert [a] + [b] == [a, b];
    ShorterSnoc([a, b], c, us);
    assert [a, b] + [c] == [a, b, c];
    ShortLivedAreTimed(cfg, 1, [a, b, c]);
  }

  /** A self-transition restarts the time, and a long connection is counted as short-lived. */
  lemma SelfTransitionRestarts(cfg: Config, t: u64, late: u64)
    requires cfg.shortTcpConnUs > 5 && ElapsedUs(t, late) >= cfg.shortTcpConnUs && late + 5000 < U64_SIZE
    ensures var ops := [Transition(0, 1, TCP_SYN_SENT, TCP_ESTABLISHED, t),
                        Transition(0, 1, TCP_ESTABLISHED, TCP_ESTABLISHED, late),
                        Transition(0, 1, TCP_ESTABLISHED, TCP_CLOSE, late + 5000)];
            && Chained(ops) && Shorter(ops, cfg.shortTcpConnUs) == 0
            && Total(Run(cfg, 1, ops).mems, ShortLivedTotal) == 1
  {
    var us := cfg.shortTcpConnUs;
    var a := Transition(0, 1, TCP_SYN_SENT, TCP_ESTABLISHED, t);
    var b := Transition(0, 1, TCP_ESTABLISHED, TCP_ESTABLISHED, late);
    var c := Transition(0, 1, TCP_ESTABLISHED, TCP_CLOSE, late + 5000);
    ShorterSnoc([], a, us);
    assert [] + [a] == [a];
    ShorterSnoc([a], b, us);
    assert [a] + [b] == [a, b];
    ShorterSnoc([a, b], c, us);
    assert [a, b] + [c] == [a, b, c];
    ShortLivedAreTimed(cfg, 1, [a, b, c]);
  }

  // ---------------------------------------------------------------- counters of the hook

  const SYN_STATES := {TCP_SYN_SENT, TCP_SYN_RECV, TCP_NEW_SYN_RECV}

  function Failures(): Op -> bool {
    (op: Op) => op.Transition? && IsSynState(op.oldState) && op.newState == TCP_CLOSE
  }

  function SynToEstablished(): Op -> bool {
    (op: Op) => op.Transition? && IsSynState(op.oldState) && op.newState == TCP_ESTABLISHED
  }

  lemma {:induction false} ConnectsCounted(cfg: Config, ncpu: nat, ops: seq<Op>)
    requires CpusExist(ncpu, ops)
    ensures var mems := Run(cfg, ncpu, ops).mems;
            && Total(mems, ConnectAttemptTotal) == Count(ops, Into({TCP_SYN_SENT, TCP_SYN_RECV}))
            && Total(mems, ConnectFailedTotal) == Count(ops, Failures())
  {
    if ops == [] {
      TotalBlank(ncpu, ConnectAttemptTotal);
      TotalBlank(ncpu, ConnectFailedTotal);
    } else {
      var n := |ops| - 1;
      ConnectsCounted(cfg, ncpu, ops[..n]);
      ConnectStep(cfg, Run(cfg, ncpu, ops[..n]), ops[n]);
    }
  }

  /** The two connect counters, by state number: SYN_SENT 2, SYN_RECV 3, NEW_SYN_RECV 12, CLOSE 7. */
  lemma ConnectsByState(cfg: Config, ncpu: nat, ops: seq<Op>)
    requires CpusExist(ncpu, ops)
    ensures Total(Run(cfg, ncpu, ops).mems, ConnectAttemptTotal)
         == Count(ops, (op: Op) => op.Transition? && (op.newState == 2 || op.newState == 3))
    ensures Total(Run(cfg, ncpu, ops).mems, ConnectFailedTotal)
         == Count(ops, (op: Op) => op.Transition? && op.oldState in {2, 3, 12} && op.newState == 7)
  {
    ConnectsCounted(cfg, ncpu, ops);
    CountSame(ops, Into({TCP_SYN_SENT, TCP_SYN_RECV}),
              (op: Op) => op.Transition? && (op.newState == 2 || op.newState == 3));
    CountSame(ops, Failures(), (op: Op) => op.Transition? && op.oldState in {2, 3, 12} && op.newState == 7);
  }

  /**
   The attempt counter is described as counting SYN-like transitions. It does so exactly in the runs
   that never enter NEW_SYN_RECV, whose entries it leaves out.
   */
  lemma AttemptsAreSynTransitions(cfg: Config, ncpu: nat, ops: seq<Op>)
    requires CpusExist(ncpu, ops)
    ensures Total(Run(cfg, ncpu, ops).mems, ConnectAttemptTotal) == Count(ops, Into(SYN_STATES))
       <==> Count(ops, Into({TCP_NEW_SYN_RECV})) == 0
  {
    ConnectsCounted(cfg, ncpu, ops);
    CountSplit(ops, Into(SYN_STATES), Into({TCP_SYN_SENT, TCP_SYN_RECV}), Into({TCP_NEW_SYN_RECV}));
  }

  /** An entry into NEW_SYN_RECV is a SYN-like transition and no attempt. */
  lemma NewSynRecvIsNoAttempt(cfg: Config, t: u64)
    ensures var ops := [Transition(0, 1, TCP_CLOSE, TCP_NEW_SYN_RECV, t)];
            && Count(ops, Into(SYN_STATES)) == 1
            && Total(Run(cfg, 1, ops).mems, ConnectAttemptTotal) == 0
  {
    var ops := [Transition(0, 1, TCP_CLOSE, TCP_NEW_SYN_RECV, t)];
    assert ops[..0] == [];
    ConnectsCounted(cfg, 1, ops);
  }

  /** Between handler runs, short-lived connections are among the closed ones. */
  lemma {:induction false} ShortLivedAreClosed(cfg: Config, ncpu: nat, ops: seq<Op>)
    requires CpusExist(ncpu, ops)
    ensures var mems := Run(cfg, ncpu, ops).mems; 0 <= Total(mems, ShortLivedTotal) <= Total(mems, ClosedTotal)
  {
    if ops == [] {
      TotalBlank(ncpu, ShortLivedTotal);
      TotalBlank(ncpu, ClosedTotal);
    } else {
      var n := |ops| - 1;
      ShortLivedAreClosed(cfg, ncpu, ops[..n]);
      ShortLivedStep(cfg, Run(cfg, ncpu, ops[..n]), ops[n]);
      ClosedStep(cfg, Run(cfg, ncpu, ops[..n]), ops[n]);
    }
  }

  /**
   Connect accounting for chained runs: attempts count two entry states, failures three exit
   states, so failed and successful connects are covered by attempts, sockets first seen in a
   SYN-like state, and entries into NEW_SYN_RECV.
   */
  lemma ConnectsAccounted(cfg: Config, ncpu: nat, ops: seq<Op>)
    requires CpusExist(ncpu, ops) && Chained(ops)
    ensures var mems := Run(cfg, ncpu, ops).mems;
            Total(mems, ConnectFailedTotal) + Count(ops, SynToEstablished())
            <= Total(mems, ConnectAttemptTotal) + |SocksIn(First(ops), SYN_STATES)|
             + Count(ops, Into({TCP_NEW_SYN_RECV}))
  {
    ConnectsCounted(cfg, ncpu, ops);
    Telescope(ops, SYN_STATES);
    var both: Op -> bool := op => Failures()(op) || SynToEstablished()(op);
    CountSplit(ops, both, Failures(), SynToEstablished());
    CountLe(ops, both, Leaves(SYN_STATES));
    CountLe(ops, Enters(SYN_STATES), Into(SYN_STATES));
    CountSplit(ops, Into(SYN_STATES), Into({TCP_SYN_SENT, TCP_SYN_RECV}), Into({TCP_NEW_SYN_RECV}));
  }
}
