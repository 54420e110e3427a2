/**
 The cooldown of one flow entry with its read and its write as separate steps, as two CPUs perform
 them: a handler that finds the last event old enough reports, and writes the new event time a little
 later. The entry lives through the whole run.
 */
module Gates {
  import opened Base

  datatype Op =
    | Check(agent: nat, now: u64)   // a handler reads the event time, and reports if it is old enough
    | Store(agent: nat)             // the handler that reported writes its time

  /** `held` are the times of handlers that have reported and not stored yet, `events` all reports. */
  datatype State = State(last: u64, held: map<nat, u64>, events: seq<u64>)

  /** A handler that owes no write passes the gate. */
  predicate Passes(cooldown: u64, s: State, op: Op) {
    op.Check? && op.agent !in s.held && CooldownOver(s.last, cooldown, op.now)
  }

  function Next(cooldown: u64, s: State, op: Op): State {
    match op
    case Check(agent, now) =>
      if Passes(cooldown, s, op) then s.(held := s.held[agent := now], events := s.events + [now]) else s
    case Store(agent) =>
      if agent in s.held then s.(last := s.held[agent], held := s.held - {agent}) else s
  }

  function Run(cooldown: u64, ops: seq<Op>): State {
    if ops == [] then State(0, map[], []) else Next(cooldown, Run(cooldown, ops[..|ops| - 1]), ops[|ops| - 1])
  }

  /** Events are more than the cooldown apart. */
  ghost predicate Spaced(cooldown: u64, events: seq<u64>) {
    forall i, j :: 0 <= i < j < |events| ==> events[j] > events[i] + cooldown
  }

  /** No handler passes while another has passed and not stored its time. */
  ghost predicate NoOverlap(cooldown: u64, ops: seq<Op>) {
    ops == [] ||
    var n := |ops| - 1;
    && NoOverlap(cooldown, ops[..n])
    && (Passes(cooldown, Run(cooldown, ops[..n]), ops[n]) ==> Run(cooldown, ops[..n]).held == map[])
  }

  /** Handlers take no longer than the cooldown: one that passes finds no older write outstanding. */
  ghost predicate Quick(cooldown: u64, ops: seq<Op>) {
    ops == [] ||
    var n := |ops| - 1;
    var s := Run(cooldown, ops[..n]);
    && Quick(cooldown, ops[..n])
    && (Passes(cooldown, s, ops[n]) ==> forall a :: a in s.held ==> ops[n].now <= s.held[a] + cooldown)
  }

  ghost predicate NoOverflow(cooldown: u64, ops: seq<Op>) {
    forall i :: 0 <= i < |ops| && ops[i].Check? ==> ops[i].now + cooldown < U64_SIZE
  }

  /** Without overlap the entry holds the latest event, or its handler does. */
  ghost predicate UpToDate(cooldown: u64, s: State) {
    && Spaced(cooldown, s.events)
    && (forall e :: e in s.events ==> e + cooldown < U64_SIZE)
    && (s.held == map[] ==> s.last == if s.events == [] then 0 else s.events[|s.events| - 1])
    && (s.held != map[] ==> s.events != [] && exists a :: a in s.held && s.held == map[a := s.events[|s.events| - 1]])
  }

  lemma PassKeeps(cooldown: u64, s: State, op: Op)
    requires UpToDate(cooldown, s) && s.held == map[] && Passes(cooldown, s, op) && op.now + cooldown < U64_SIZE
    ensures UpToDate(cooldown, Next(cooldown, s, op))
  {
    var r := Next(cooldown, s, op);
    assert r.held == map[op.agent := r.events[|r.events| - 1]];
    forall i | 0 <= i < |s.events| ensures op.now > s.events[i] + cooldown {
      assert i < |s.events| - 1 ==> s.events[|s.events| - 1] > s.events[i] + cooldown;
      assert s.events[|s.events| - 1] in s.events;
    }
  }

  lemma {:induction false} StaysUpToDate(cooldown: u64, ops: seq<Op>)
    requires NoOverlap(cooldown, ops) && NoOverflow(cooldown, ops)
    ensures UpToDate(cooldown, Run(cooldown, ops))
  {
    if ops != [] {
      var n := |ops| - 1;
      var s := Run(cooldown, ops[..n]);
      StaysUpToDate(cooldown, ops[..n]);
      if Passes(cooldown, s, ops[n]) {
        PassKeeps(cooldown, s, ops[n]);
      } else if ops[n].Store? && ops[n].agent in s.held {
        assert Run(cooldown, ops).held == map[];
      }
    }
  }

  /** Whatever is owed was reported. */
  ghost predicate Recorded(s: State) {
    forall a :: a in s.held ==> exists i :: 0 <= i < |s.events| && s.events[i] == s.held[a]
  }

  lemma NextRecorded(cooldown: u64, s: State, op: Op)
    requires Recorded(s)
    ensures Recorded(Next(cooldown, s, op))
  {
    var r := Next(cooldown, s, op);
    forall a | a in r.held ensures exists i :: 0 <= i < |r.events| && r.events[i] == r.held[a] {
      if Passes(cooldown, s, op) && a == op.agent {
        assert r.events[|s.events|] == r.held[a];
      } else {
        var i :| 0 <= i < |s.events| && s.events[i] == s.held[a];
        assert r.events[i] == r.held[a];
      }
    }
  }

  lemma {:induction false} HeldAreEvents(cooldown: u64, ops: seq<Op>)
    ensures Recorded(Run(cooldown, ops))
  {
    if ops != [] {
      HeldAreEvents(cooldown, ops[..|ops| - 1]);
      NextRecorded(cooldown, Run(cooldown, ops[..|ops| - 1]), ops[|ops| - 1]);
    }
  }

  lemma {:induction false} EventsGrow(cooldown: u64, ops: seq<Op>, n: nat)
    requires n <= |ops|
    ensures Run(cooldown, ops[..n]).events <= Run(cooldown, ops).events
    decreases |ops|
  {
    if n < |ops| {
      assert ops[..|ops| - 1][..n] == ops[..n];
      EventsGrow(cooldown, ops[..|ops| - 1], n);
    } else {
      assert ops[..n] == ops;
    }
  }

  /** An overlap of quick handlers reports twice within the cooldown. */
  lemma {:induction false} OverlapCollides(cooldown: u64, ops: seq<Op>)
    requires Quick(cooldown, ops) && !NoOverlap(cooldown, ops)
    ensures !Spaced(cooldown, Run(cooldown, ops).events)
  {
    var n := |ops| - 1;
    var s, r := Run(cooldown, ops[..n]), Run(cooldown, ops);
    if NoOverlap(cooldown, ops[..n]) {
      HeldAreEvents(cooldown, ops[..n]);
      var a :| a in s.held;
      var i :| 0 <= i < |s.events| && s.events[i] == s.held[a];
      assert r.events[i] == s.events[i] && r.events[|s.events|] == ops[n].now;
    } else {
      OverlapCollides(cooldown, ops[..n]);
      EventsGrow(cooldown, ops, n);
      var i, j :| 0 <= i < j < |s.events| && s.events[j] <= s.events[i] + cooldown;
      assert r.events[i] == s.events[i] && r.events[j] == s.events[j];
    }
  }

  /**
   When the rate limit survives the race. Without overlap it does, on any number of CPUs. For
   handlers that take no longer than the cooldown it does exactly without overlap.
   */
  lemma RateLimitSurvives(cooldown: u64, ops: seq<Op>)
    requires NoOverflow(cooldown, ops)
    ensures NoOverlap(cooldown, ops) ==> Spaced(cooldown, Run(cooldown, ops).events)
    ensures Quick(cooldown, ops) ==> (Spaced(cooldown, Run(cooldown, ops).events) <==> NoOverlap(cooldown, ops))
  {
    if NoOverlap(cooldown, ops) {
      StaysUpToDate(cooldown, ops);
    } else if Quick(cooldown, ops) {
      OverlapCollides(cooldown, ops);
    }
  }

  /** Two packets handled at the same moment report one flow twice. */
  lemma ReportedTwice(cooldown: u64, now: u64)
    requires now > cooldown
    ensures Run(cooldown, [Check(0, now), Check(1, now)]).events == [now, now]
  {
    var a, b := Check(0, now), Check(1, now);
    assert [a, b][..1] == [a] && [a][..0] == [];
    assert Run(cooldown, [a]) == State(0, map[0 := now], [now]);
  }
}
