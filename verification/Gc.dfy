/**
 Userspace expiry. A pass samples the clock once, then reads and deletes entries one at a time while
 handlers keep changing the map. The map is reduced to what the collector looks at: one time stamp
 per key, the start of a pending query or the last packet of a flow.
 */
module Gc {
  import opened Base

  /** The guard of both collectors, in their order: no stamp is subtracted unless it is in the past. */
  predicate Stale(passNow: u64, stamp: u64, timeout: u64) {
    !(stamp == 0 || passNow <= stamp || passNow - stamp <= timeout)
  }

  /**
   A running pass: the clock sampled at its start, the entry read and not yet acted on, and, for the
   specification, the keys present without interruption since the start and the keys read so far.
   */
  datatype Pass<K> =
    | Idle
    | Running(passNow: u64, cursor: Option<(K, u64)>, present: set<K>, visited: set<K>)

  /**
   `lastDone` is the clock sample of the last completed pass, `reported` what the passes have
   returned as deleted, `removed` the entries they really removed.
   */
  datatype State<K> = State(
    table: map<K, u64>,
    clock: u64,
    pass: Pass<K>,
    lastDone: Option<u64>,
    reported: nat,
    removed: nat
  )

  datatype Step<K> =
    | Tick(now: u64)        // time passes
    | Write(key: K)         // a handler stores the current time under a key
    | Remove(key: K)        // a handler or the map itself removes a key
    | Begin(sample: u64)    // a pass starts iterating, with a clock sample taken at or before
    | Read(key: K)          // the iterator returns an entry
    | Act                   // the collector skips or deletes the entry it read
    | End                   // the iterator is exhausted

  function Start<K>(clock: u64): State<K> {
    State(map[], clock, Idle, None, 0, 0)
  }

  function Drop<K>(s: State<K>, key: K): State<K> {
    s.(table := s.table - {key},
       pass := if s.pass.Running? then s.pass.(present := s.pass.present - {key}) else s.pass)
  }

  function Next<K>(timeout: u64, s: State<K>, e: Step<K>): State<K> {
    match e
    case Tick(t) => if t >= s.clock then s.(clock := t) else s
    case Write(key) => s.(table := s.table[key := s.clock])
    case Remove(key) => Drop(s, key)
    case Begin(sample) =>
      if s.pass.Idle? && 0 < sample <= s.clock
      then s.(pass := Running(sample, None, s.table.Keys, {}))
      else s
    case Read(key) =>
      if s.pass.Running? && s.pass.cursor.None? && key in s.table
      then s.(pass := s.pass.(cursor := Some((key, s.table[key])), visited := s.pass.visited + {key}))
      else s
    case Act =>
      if !(s.pass.Running? && s.pass.cursor.Some?) then s
      else
        var (key, stamp) := s.pass.cursor.value;
        var t := s.(pass := s.pass.(cursor := None));
        if Stale(s.pass.passNow, stamp, timeout)
        then Drop(t, key).(reported := s.reported + 1, removed := s.removed + if key in s.table then 1 else 0)
        else t
    case End =>
      // An exhausted iterator has returned every key that was in the map all along.
      if s.pass.Running? && s.pass.cursor.None? && s.pass.present <= s.pass.visited
      then s.(pass := Idle, lastDone := Some(s.pass.passNow))
      else s
  }

  function Run<K>(timeout: u64, s: State<K>, es: seq<Step<K>>): State<K>
    decreases |es|
  {
    if es == [] then s else Run(timeout, Next(timeout, s, es[0]), es[1..])
  }

  lemma {:induction false} RunConcat<K>(timeout: u64, s: State<K>, a: seq<Step<K>>, b: seq<Step<K>>)
    ensures Run(timeout, s, a + b) == Run(timeout, Run(timeout, s, a), b)
    decreases |a|
  {
    if a == [] {
      assert a + b == b;
    } else {
      assert (a + b)[0] == a[0] && (a + b)[1..] == a[1..] + b;
      RunConcat(timeout, Next(timeout, s, a[0]), a[1..], b);
    }
  }

  // ---------------------------------------------------------------- what every step keeps

  /** An entry either was written no earlier than `since` or is too fresh to be collected. */
  predicate Fresh(since: u64, stamp: u64, timeout: u64) {
    stamp >= since || !Stale(since, stamp, timeout)
  }

  ghost predicate PassInv<K>(timeout: u64, s: State<K>)
    requires s.pass.Running?
  {
    var p := s.pass;
    && p.passNow <= s.clock
    && p.present <= s.table.Keys
    // An entry older than the pass has been there since its start.
    && (forall k :: k in s.table && s.table[k] < p.passNow ==> k in p.present)
    // What was read and acted on is fresh; what was read last is unchanged or was rewritten.
    && (forall k :: k in p.visited && k in s.table ==>
          || Fresh(p.passNow, s.table[k], timeout)
          || (p.cursor.Some? && p.cursor.value == (k, s.table[k])))
    && (p.cursor.Some? ==>
          && p.cursor.value.0 in p.visited
          && (p.cursor.value.0 in s.table ==>
                s.table[p.cursor.value.0] == p.cursor.value.1 || s.table[p.cursor.value.0] >= p.passNow))
  }

  ghost predicate Inv<K>(timeout: u64, s: State<K>) {
    && (forall k :: k in s.table ==> 0 < s.table[k] <= s.clock)
    && (s.pass.Running? ==> PassInv(timeout, s))
    && (s.lastDone.Some? ==>
          && s.lastDone.value <= s.clock
          && forall k :: k in s.table ==> Fresh(s.lastDone.value, s.table[k], timeout))
    && s.removed <= s.reported
    && s.clock > 0
  }

  lemma StartInv<K>(timeout: u64, clock: u64)
    requires clock > 0
    ensures Inv(timeout, Start<K>(clock))
  {
  }

  lemma NextInv<K>(timeout: u64, s: State<K>, e: Step<K>)
    requires Inv(timeout, s)
    ensures Inv(timeout, Next(timeout, s, e))
  {
  }

  lemma {:induction false} RunInv<K>(timeout: u64, s: State<K>, es: seq<Step<K>>)
    requires Inv(timeout, s)
    ensures Inv(timeout, Run(timeout, s, es))
    decreases |es|
  {
    if es != [] {
      NextInv(timeout, s, es[0]);
      RunInv(timeout, Next(timeout, s, es[0]), es[1..]);
    }
  }

  // ---------------------------------------------------------------- bounded staleness

  /** No stamp is older than the start of the run. */
  ghost predicate NotBefore<K>(start: u64, s: State<K>) {
    start <= s.clock && forall k :: k in s.table ==> start <= s.table[k]
  }

  lemma NextNotBefore<K>(timeout: u64, start: u64, s: State<K>, e: Step<K>)
    requires NotBefore(start, s)
    ensures NotBefore(start, Next(timeout, s, e))
  {
  }

  lemma {:induction false} RunNotBefore<K>(timeout: u64, start: u64, s: State<K>, es: seq<Step<K>>)
    requires NotBefore(start, s)
    ensures NotBefore(start, Run(timeout, s, es))
    decreases |es|
  {
    if es != [] {
      NextNotBefore(timeout, start, s, es[0]);
      RunNotBefore(timeout, start, Next(timeout, s, es[0]), es[1..]);
    }
  }

  /** The clock sample of the last completed pass; before the first, the start of the run. */
  function Since<K>(start: u64, s: State<K>): u64 {
    if s.lastDone.Some? then s.lastDone.value else start
  }

  lemma AgesBounded<K>(timeout: u64, start: u64, s: State<K>, interval: nat)
    requires Inv(timeout, s) && NotBefore(start, s) && s.clock - Since(start, s) <= interval
    ensures forall k :: k in s.table ==> 0 <= s.clock - s.table[k] <= timeout + interval
    ensures s.lastDone.None? ==> forall k :: k in s.table ==> s.clock - s.table[k] <= interval
  {
    forall k | k in s.table ensures 0 <= s.clock - s.table[k] <= timeout + interval {
      if s.lastDone.Some? {
        assert Fresh(s.lastDone.value, s.table[k], timeout);
      }
    }
  }

  /**
   Passes that read and delete in separate steps, among handlers that keep writing, still bound the
   age of every entry: no entry is older than the timeout plus the time since the last completed pass
   sampled the clock, and before the first pass none is older than the run. With a pass at least
   every `interval` nanoseconds from the start, no entry ever outlives timeout plus interval.
   */
  lemma BoundedStaleness<K>(timeout: u64, clock: u64, es: seq<Step<K>>, interval: nat)
    requires clock > 0
    requires var s := Run(timeout, Start<K>(clock), es); s.clock - Since(clock, s) <= interval
    ensures var s := Run(timeout, Start<K>(clock), es);
            && (forall k :: k in s.table ==> 0 <= s.clock - s.table[k] <= timeout + interval)
            && (s.lastDone.None? ==> forall k :: k in s.table ==> s.clock - s.table[k] <= interval)
  {
    StartInv<K>(timeout, clock);
    RunInv(timeout, Start<K>(clock), es);
    RunNotBefore(timeout, clock, Start<K>(clock), es);
    AgesBounded(timeout, clock, Run(timeout, Start<K>(clock), es), interval);
  }

  // ---------------------------------------------------------------- what a deletion may hit

  /** The entry the collector is about to delete. */
  predicate Deleting<K>(timeout: u64, s: State<K>) {
    s.pass.Running? && s.pass.cursor.Some? && Stale(s.pass.passNow, s.pass.cursor.value.1, timeout)
  }

  /**
   In every reachable state, an entry up for deletion had an age above the timeout when it was read,
   measured without underflow. If its key is still there untouched, it is older than the timeout
   now; otherwise a handler has rewritten it since the pass started, and the fresh entry is lost.
   */
  lemma DeletionIsJustified<K>(timeout: u64, clock: u64, es: seq<Step<K>>)
    requires clock > 0 && Deleting(timeout, Run(timeout, Start<K>(clock), es))
    ensures var s := Run(timeout, Start<K>(clock), es);
            var (key, stamp) := s.pass.cursor.value;
            && 0 < stamp < s.pass.passNow && s.pass.passNow - stamp > timeout
            && (key in s.table ==>
                  || (s.table[key] == stamp && s.clock - s.table[key] > timeout)
                  || s.table[key] >= s.pass.passNow)
            && key !in Next(timeout, s, Act).table
  {
    StartInv<K>(timeout, clock);
    RunInv(timeout, Start<K>(clock), es);
  }

  /** Which entries go: those with a nonzero stamp more than the timeout before the clock sample, and no others. */
  lemma ActExactly<K>(timeout: u64, s: State<K>)
    requires s.pass.Running? && s.pass.cursor.Some?
    ensures var key, stamp := s.pass.cursor.value.0, s.pass.cursor.value.1;
            var r, over := Next(timeout, s, Act), 0 < stamp && stamp + timeout < s.pass.passNow;
            && r.table == (if over then s.table - {key} else s.table)
            && r.reported == s.reported + (if over then 1 else 0)
            && r.removed == s.removed + (if over && key in s.table then 1 else 0)
            && r.pass.Running? && r.pass.cursor.None?
  {
  }

  /** The number a pass reports is at least the number of entries it removed. */
  lemma ReportedCoversRemoved<K>(timeout: u64, clock: u64, es: seq<Step<K>>)
    requires clock > 0
    ensures var s := Run(timeout, Start<K>(clock), es); s.removed <= s.reported
  {
    StartInv<K>(timeout, clock);
    RunInv(timeout, Start<K>(clock), es);
  }

  /** Deletes of a run that found their key gone already. */
  function FoundGone<K>(timeout: u64, s: State<K>, es: seq<Step<K>>): nat
    decreases |es|
  {
    if es == [] then 0
    else
      (if es[0].Act? && Deleting(timeout, s) && s.pass.cursor.value.0 !in s.table then 1 else 0)
      + FoundGone(timeout, Next(timeout, s, es[0]), es[1..])
  }

  /** Deletes of a run that removed an entry. */
  function FoundThere<K>(timeout: u64, s: State<K>, es: seq<Step<K>>): nat
    decreases |es|
  {
    if es == [] then 0
    else
      (if es[0].Act? && Deleting(timeout, s) && s.pass.cursor.value.0 in s.table then 1 else 0)
      + FoundThere(timeout, Next(timeout, s, es[0]), es[1..])
  }

  /** Every delete is reported once: those that removed an entry, and those that found the key gone. */
  lemma {:induction false} ReportedExactly<K>(timeout: u64, s: State<K>, es: seq<Step<K>>)
    ensures var r := Run(timeout, s, es);
            && r.removed == s.removed + FoundThere(timeout, s, es)
            && r.reported == s.reported + FoundThere(timeout, s, es) + FoundGone(timeout, s, es)
    decreases |es|
  {
    if es != [] {
      ReportedExactly(timeout, Next(timeout, s, es[0]), es[1..]);
    }
  }

  /** A handler refreshes a key between read and delete: the refreshed entry goes with the stale one. */
  lemma RefreshMayBeLost<K>(timeout: u64, key: K)
    requires timeout + 3 < U64_SIZE
    ensures var es := [Write(key), Tick(timeout + 2), Begin(timeout + 2), Read(key), Write(key)];
            var s := Run(timeout, Start<K>(1), es);
            && key in s.table && s.table[key] == s.clock
            && key !in Next(timeout, s, Act).table
  {
    var s0 := Start<K>(1);
    var late: u64 := timeout + 2;
    var s1 := Next(timeout, s0, Write(key));
    var s2 := Next(timeout, s1, Tick(late));
    var s3 := Next(timeout, s2, Begin(late));
    var s4 := Next(timeout, s3, Read(key));
    var s5 := Next(timeout, s4, Write(key));
    var es := [Write(key), Tick(late), Begin(late), Read(key), Write(key)];
    assert es[1..] == [Tick(late), Begin(late), Read(key), Write(key)];
    assert es[1..][1..] == [Begin(late), Read(key), Write(key)];
    assert es[1..][1..][1..] == [Read(key), Write(key)];
    assert es[1..][1..][1..][1..] == [Write(key)];
    assert es[1..][1..][1..][1..][1..] == [];
    assert Run(timeout, s4, [Write(key)]) == Run(timeout, s5, []) == s5;
    assert Run(timeout, s3, [Read(key), Write(key)]) == s5;
    assert Run(timeout, s2, es[1..][1..]) == s5;
    assert Run(timeout, s1, es[1..]) == s5;
  }

  /** Steps only the collector and the clock take. */
  predicate OwnStep<K>(e: Step<K>) {
    e.Tick? || e.Begin? || e.Read? || e.Act? || e.End?
  }

  /** The key a collector step really removes. */
  function Removed<K>(timeout: u64, s: State<K>, e: Step<K>): Option<K> {
    if e.Act? && Deleting(timeout, s) then Some(s.pass.cursor.value.0) else None
  }

  /** What a step of the collector or the clock does to the map. */
  lemma OwnStepTable<K>(timeout: u64, s: State<K>, e: Step<K>)
    requires OwnStep(e)
    ensures var r, gone := Next(timeout, s, e), Removed(timeout, s, e);
            && r.table == (if gone.Some? then s.table - {gone.value} else s.table)
            && r.removed == s.removed + (if gone.Some? && gone.value in s.table then 1 else 0)
  {
  }

  // ---------------------------------------------------------------- the collector

  /** One turn of the iteration: what happens before `Next`, the key it returns, what happens after. */
  datatype Turn<K> = Turn(before: seq<Step<K>>, key: K, between: seq<Step<K>>)

  predicate ByOthers<K>(es: seq<Step<K>>) {
    forall i :: 0 <= i < |es| ==> es[i].Tick? || es[i].Write? || es[i].Remove?
  }

  function TurnSteps<K>(turn: Turn<K>): seq<Step<K>> {
    turn.before + [Read(turn.key)] + turn.between + [Act]
  }

  function TurnsSteps<K>(turns: seq<Turn<K>>): seq<Step<K>> {
    if turns == [] then [] else TurnsSteps(turns[..|turns| - 1]) + TurnSteps(turns[|turns| - 1])
  }

  /** Steps of others leave the pass where it is. */
  lemma {:induction false} OthersKeepPass<K>(timeout: u64, s: State<K>, es: seq<Step<K>>)
    requires ByOthers(es)
    ensures var r := Run(timeout, s, es);
            && r.reported == s.reported
            && (s.pass.Idle? ==> r.pass == s.pass)
            && (s.pass.Running? ==>
                  r.pass.Running? && r.pass.passNow == s.pass.passNow && r.pass.cursor == s.pass.cursor)
    decreases |es|
  {
    if es != [] {
      OthersKeepPass(timeout, Next(timeout, s, es[0]), es[1..]);
    }
  }

  lemma TurnRuns<K>(timeout: u64, s: State<K>, turn: Turn<K>)
    ensures Run(timeout, s, TurnSteps(turn))
         == Next(timeout, Run(timeout, Next(timeout, Run(timeout, s, turn.before), Read(turn.key)), turn.between), Act)
  {
    var a, b, c, d := turn.before, [Read(turn.key)], turn.between, [Act];
    RunConcat(timeout, s, a + b + c, d);
    RunConcat(timeout, s, a + b, c);
    RunConcat(timeout, s, a, b);
    assert b[1..] == [] && d[1..] == [];
  }

  /** A map shared between handlers and the collector. */
  class SharedMap<K(==)> {
    var st: State<K>

    constructor (clock: u64)
      ensures st == Start(clock)
    {
      st := Start(clock);
    }

    /** Other parties' steps: handlers, eviction, time. */
    method Interfere(ghost timeout: u64, es: seq<Step<K>>)
      requires ByOthers(es)
      modifies this
      ensures st == Run(timeout, old(st), es)
    {
      ghost var s0 := st;
      assert es[..0] == [];
      for i := 0 to |es|
        invariant st == Run(timeout, s0, es[..i])
      {
        RunConcat(timeout, s0, es[..i], [es[i]]);
        assert es[..i + 1] == es[..i] + [es[i]];
        assert [es[i]][1..] == [];
        assert Run(timeout, st, [es[i]]) == Next(timeout, st, es[i]);
        assert es[i].Tick? || es[i].Write? || es[i].Remove?;
        st := Next(0, st, es[i]);
      }
      assert es[..|es|] == es;
    }

    /**
     One iteration: read the next entry, skip it when it is not stale by the clock sample, else
     delete it. Others may act before the read and between read and delete.
     */
    method TakeTurn(sample: u64, timeout: u64, turn: Turn<K>) returns (deleted: nat)
      requires st.pass.Running? && st.pass.passNow == sample && st.pass.cursor.None?
      requires ByOthers(turn.before) && ByOthers(turn.between)
      modifies this
      ensures st == Run(timeout, old(st), TurnSteps(turn))
      ensures st.pass.Running? && st.pass.passNow == sample && st.pass.cursor.None?
      ensures deleted == st.reported - old(st.reported)
    {
      deleted := 0;
      TurnRuns(timeout, st, turn);
      OthersKeepPass(timeout, st, turn.before);
      Interfere(timeout, turn.before);
      var val := None;
      if turn.key in st.table {
        val := Some(st.table[turn.key]);
        st := st.(pass := st.pass.(cursor := Some((turn.key, val.value)), visited := st.pass.visited + {turn.key}));
      }
      OthersKeepPass(timeout, st, turn.between);
      Interfere(timeout, turn.between);
      if val.Some? {
        if val.value == 0 || sample <= val.value || sample - val.value <= timeout {
          st := st.(pass := st.pass.(cursor := None));
        } else {
          st := Delete(st, turn.key);
          deleted := 1;
        }
      }
    }

    /**
     `gcDNSPending` and `gcUDPFlows`: iterate, skip what is not stale by the clock sample, delete the
     rest, and count. The outcome is a run of the step machine; the result is what it reports.
     */
    method Collect(sample: u64, timeout: u64, turns: seq<Turn<K>>) returns (deleted: nat)
      requires st.pass.Idle? && 0 < sample <= st.clock
      requires forall i :: 0 <= i < |turns| ==> ByOthers(turns[i].before) && ByOthers(turns[i].between)
      modifies this
      ensures st == Run(timeout, old(st), [Begin(sample)] + TurnsSteps(turns) + [End])
      ensures deleted == st.reported - old(st.reported)
    {
      ghost var s0 := st;
      PassRuns(timeout, s0, sample, turns);
      deleted := 0;
      st := st.(pass := Running(sample, None, st.table.Keys, {}));
      ghost var s1 := st;
      for i := 0 to |turns|
        invariant st == Run(timeout, s1, TurnsSteps(turns[..i]))
        invariant st.pass.Running? && st.pass.passNow == sample && st.pass.cursor.None?
        invariant deleted == st.reported - s0.reported
      {
        RunConcat(timeout, s1, TurnsSteps(turns[..i]), TurnSteps(turns[i]));
        assert turns[..i + 1][..i] == turns[..i];
        var hit := TakeTurn(sample, timeout, turns[i]);
        deleted := deleted + hit;
      }
      assert turns[..|turns|] == turns;
      if st.pass.present <= st.pass.visited {
        st := st.(pass := Idle, lastDone := Some(sample));
      }
    }
  }

  /** `Map.Delete` on the entry under the cursor; a key that is gone already still counts as deleted. */
  function Delete<K(==)>(s: State<K>, key: K): State<K>
    requires s.pass.Running?
  {
    Drop(s.(pass := s.pass.(cursor := None)), key).(
      reported := s.reported + 1,
      removed := s.removed + if key in s.table then 1 else 0)
  }

  lemma PassRuns<K>(timeout: u64, s: State<K>, sample: u64, turns: seq<Turn<K>>)
    ensures Run(timeout, s, [Begin(sample)] + TurnsSteps(turns) + [End])
         == Next(timeout, Run(timeout, Next(timeout, s, Begin(sample)), TurnsSteps(turns)), End)
  {
    var a, b, c := [Begin(sample)], TurnsSteps(turns), [End];
    RunConcat(timeout, s, a + b, c);
    RunConcat(timeout, s, a, b);
    assert a[1..] == [] && c[1..] == [];
  }
}
