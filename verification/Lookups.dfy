/**
 Matching with the lookup of a finish and its delete as separate steps, as two CPUs perform them: a
 response looks its query up and measures it, and deletes the entry a little later. Starts are
 numbered, so that a start measured twice can be told from two starts.
 */
module Lookups {

  datatype Op<K> =
    | Start(key: K)               // a query or wakeup is written
    | Look(agent: nat, key: K)    // a handler looks up a key, and measures what it finds
    | Done(agent: nat)            // the handler deletes the key it found
    | Drop(key: K)                // the entry is collected or evicted

  /** What a handler found and has not deleted yet. */
  datatype Held<K> = Held(key: K, start: nat)

  datatype State<K> = State(table: map<K, nat>, held: map<nat, Held<K>>, starts: nat, measured: seq<nat>)

  /** A handler that holds no entry finds one. */
  predicate Finds<K(==)>(s: State<K>, op: Op<K>) {
    op.Look? && op.agent !in s.held && op.key in s.table
  }

  function Next<K(==)>(s: State<K>, op: Op<K>): State<K> {
    match op
    case Start(key) => s.(table := s.table[key := s.starts], starts := s.starts + 1)
    case Look(agent, key) =>
      if Finds(s, op)
      then s.(held := s.held[agent := Held(key, s.table[key])], measured := s.measured + [s.table[key]])
      else s
    case Done(agent) =>
      if agent in s.held then s.(table := s.table - {s.held[agent].key}, held := s.held - {agent}) else s
    case Drop(key) => s.(table := s.table - {key})
  }

  function Run<K(==)>(ops: seq<Op<K>>): State<K> {
    if ops == [] then State(map[], map[], 0, []) else Next(Run(ops[..|ops| - 1]), ops[|ops| - 1])
  }

  /** The operation finds an entry that another handler has found and not deleted yet. */
  ghost predicate Contended<K>(s: State<K>, op: Op<K>) {
    Finds(s, op) && exists a :: a in s.held && s.held[a].start == s.table[op.key]
  }

  predicate Distinct(xs: seq<nat>) {
    forall i, j :: 0 <= i < j < |xs| ==> xs[i] != xs[j]
  }

  /**
   Entries and measured starts are numbers given out, one for each key; an entry that has been
   measured is held by the handler that measured it, or by another that found it since.
   */
  ghost predicate Inv<K(!new)>(s: State<K>) {
    && (forall k :: k in s.table ==> s.table[k] < s.starts)
    && (forall k, k' :: k in s.table && k' in s.table && s.table[k] == s.table[k'] ==> k == k')
    && (forall x :: x in s.measured ==> x < s.starts)
    && (forall a :: a in s.held ==> s.held[a].start in s.measured)
    && (forall k :: k in s.table && s.table[k] in s.measured ==>
          exists a :: a in s.held && s.held[a] == Held(k, s.table[k]))
    && (forall a, k :: a in s.held && k in s.table && s.held[a].start == s.table[k] ==> s.held[a].key == k)
  }

  lemma StartKeepsInv<K(!new)>(s: State<K>, key: K)
    requires Inv(s)
    ensures Inv(Next(s, Start(key)))
  {
  }

  lemma LookKeepsInv<K(!new)>(s: State<K>, agent: nat, key: K)
    requires Inv(s)
    ensures Inv(Next(s, Look(agent, key)))
  {
    var r := Next(s, Look(agent, key));
    if Finds(s, Look(agent, key)) {
      forall k | k in r.table && r.table[k] in r.measured
        ensures exists a :: a in r.held && r.held[a] == Held(k, r.table[k])
      {
        if k == key {
          assert r.held[agent] == Held(k, r.table[k]);
        } else {
          assert r.table[k] in s.measured;
          var a :| a in s.held && s.held[a] == Held(k, s.table[k]);
          assert a != agent && r.held[a] == Held(k, r.table[k]);
        }
      }
    }
  }

  lemma DoneKeepsInv<K(!new)>(s: State<K>, agent: nat)
    requires Inv(s)
    ensures Inv(Next(s, Done(agent)))
  {
    var r := Next(s, Done(agent));
    if agent in s.held {
      forall k | k in r.table && r.table[k] in r.measured
        ensures exists a :: a in r.held && r.held[a] == Held(k, r.table[k])
      {
        var a :| a in s.held && s.held[a] == Held(k, s.table[k]);
        assert a != agent && r.held[a] == Held(k, r.table[k]);
      }
    }
  }

  lemma {:induction false} RunInv<K(!new)>(ops: seq<Op<K>>)
    ensures Inv(Run(ops))
  {
    if ops != [] {
      var s := Run(ops[..|ops| - 1]);
      RunInv(ops[..|ops| - 1]);
      match ops[|ops| - 1]
      case Start(key) => StartKeepsInv(s, key);
      case Look(agent, key) => LookKeepsInv(s, agent, key);
      case Done(agent) => DoneKeepsInv(s, agent);
      case Drop(key) =>
    }
  }

  lemma DistinctSnoc(xs: seq<nat>, x: nat)
    ensures Distinct(xs + [x]) <==> Distinct(xs) && x !in xs
  {
    var ys := xs + [x];
    if Distinct(ys) {
      forall i, j | 0 <= i < j < |xs| ensures xs[i] != xs[j] {
        assert ys[i] != ys[j];
      }
      forall i | 0 <= i < |xs| ensures xs[i] != x {
        assert ys[i] != ys[|xs|];
      }
    }
  }

  lemma ContendedIsMeasured<K(!new)>(s: State<K>, op: Op<K>)
    requires Inv(s) && Finds(s, op)
    ensures Contended(s, op) <==> s.table[op.key] in s.measured
  {
    if s.table[op.key] in s.measured {
      var a :| a in s.held && s.held[a] == Held(op.key, s.table[op.key]);
      assert s.held[a].start == s.table[op.key];
    }
  }

  /** No lookup of the run finds an entry that another handler has found and not deleted yet. */
  ghost predicate Uncontended<K>(ops: seq<Op<K>>) {
    ops == [] ||
    var n := |ops| - 1;
    Uncontended(ops[..n]) && !Contended(Run(ops[..n]), ops[n])
  }

  /** A start is measured at most once exactly in the runs without contended lookups. */
  lemma {:induction false} MeasuredOnceExactly<K(!new)>(ops: seq<Op<K>>)
    ensures Distinct(Run(ops).measured) <==> Uncontended(ops)
  {
    if ops != [] {
      var n := |ops| - 1;
      var s := Run(ops[..n]);
      MeasuredOnceExactly(ops[..n]);
      RunInv(ops[..n]);
      if Finds(s, ops[n]) {
        DistinctSnoc(s.measured, s.table[ops[n].key]);
        ContendedIsMeasured(s, ops[n]);
      }
    }
  }

  function Looks<K>(ops: seq<Op<K>>): nat {
    if ops == [] then 0 else Looks(ops[..|ops| - 1]) + if ops[|ops| - 1].Look? then 1 else 0
  }

  function Starts<K>(ops: seq<Op<K>>): nat {
    if ops == [] then 0 else Starts(ops[..|ops| - 1]) + if ops[|ops| - 1].Start? then 1 else 0
  }

  lemma {:induction false} Counted<K(!new)>(ops: seq<Op<K>>)
    ensures Run(ops).starts == Starts(ops) && |Run(ops).measured| <= Looks(ops)
  {
    if ops != [] {
      Counted(ops[..|ops| - 1]);
    }
  }

  function Elements(xs: seq<nat>): set<nat> {
    if xs == [] then {} else Elements(xs[..|xs| - 1]) + {xs[|xs| - 1]}
  }

  lemma {:induction false} ElementOf(xs: seq<nat>, x: nat)
    ensures x in Elements(xs) <==> x in xs
  {
    if xs != [] {
      ElementOf(xs[..|xs| - 1], x);
      assert xs == xs[..|xs| - 1] + [xs[|xs| - 1]];
    }
  }

  lemma {:induction false} ElementsOfDistinct(xs: seq<nat>)
    requires Distinct(xs)
    ensures |Elements(xs)| == |xs|
  {
    if xs != [] {
      var n := |xs| - 1;
      ElementsOfDistinct(xs[..n]);
      ElementOf(xs[..n], xs[n]);
    }
  }

  lemma DistinctBelow(xs: seq<nat>, n: nat)
    requires Distinct(xs) && forall x :: x in xs ==> x < n
    ensures |xs| <= n
  {
    ElementsOfDistinct(xs);
    forall x | x in Elements(xs) ensures x < n {
      ElementOf(xs, x);
    }
    Below(Elements(xs), n);
  }

  lemma {:induction false} Below(xs: set<nat>, n: nat)
    requires forall x :: x in xs ==> x < n
    ensures |xs| <= n
  {
    if n == 0 {
      assert xs == {};
    } else {
      Below(xs - {n - 1}, n - 1);
    }
  }

  /**
   What survives the race: measurements never exceed lookups, and they stay within the starts as long
   as no lookup is contended.
   */
  lemma MeasurementsBounded<K(!new)>(ops: seq<Op<K>>)
    ensures |Run(ops).measured| <= Looks(ops)
    ensures Uncontended(ops) ==> |Run(ops).measured| <= Starts(ops)
  {
    Counted(ops);
    RunInv(ops);
    MeasuredOnceExactly(ops);
    if Distinct(Run(ops).measured) {
      DistinctBelow(Run(ops).measured, Run(ops).starts);
    }
  }

  /** Two responses that are handled at the same moment measure one query twice. */
  lemma OneStartTwice<K(!new)>(key: K)
    ensures var ops := [Start(key), Look(0, key), Look(1, key)];
            Starts(ops) == 1 && Run(ops).measured == [0, 0]
  {
    var a, b, c := Start(key), Look(0, key), Look(1, key);
    assert [a, b, c][..2] == [a, b] && [a, b][..1] == [a] && [a][..0] == [];
    assert Run([a]) == State(map[key := 0], map[], 1, []);
    assert Run([a, b]) == Next(Run([a]), b);
    assert Starts([a]) == 1 && Starts([a, b]) == 1;
  }

  // ---------------------------------------------------------------- what becomes of a start

  /** The key an operation removes or rewrites, if any. */
  function Clears<K(==)>(s: State<K>, op: Op<K>): set<K> {
    match op
    case Start(key) => {key}
    case Look(_, _) => {}
    case Done(agent) => if agent in s.held then {s.held[agent].key} else {}
    case Drop(key) => {key}
  }

  /** The operation takes away a start that nobody has measured. */
  predicate Wastes<K(==)>(s: State<K>, op: Op<K>) {
    exists k :: k in Clears(s, op) && k in s.table && s.table[k] !in s.measured
  }

  function Overwritten<K(==)>(ops: seq<Op<K>>): nat {
    if ops == [] then 0
    else
      var n := |ops| - 1;
      Overwritten(ops[..n]) + if ops[n].Start? && Wastes(Run(ops[..n]), ops[n]) then 1 else 0
  }

  function Dropped<K(==)>(ops: seq<Op<K>>): nat {
    if ops == [] then 0
    else
      var n := |ops| - 1;
      Dropped(ops[..n]) + if ops[n].Drop? && Wastes(Run(ops[..n]), ops[n]) then 1 else 0
  }

  /** Starts deleted by a handler that found an earlier one. */
  function Lost<K(==)>(ops: seq<Op<K>>): nat {
    if ops == [] then 0
    else
      var n := |ops| - 1;
      Lost(ops[..n]) + if ops[n].Done? && Wastes(Run(ops[..n]), ops[n]) then 1 else 0
  }

  /** Keys whose entry nobody has measured. */
  function Waiting<K>(s: State<K>): set<K> {
    set k | k in s.table && s.table[k] !in s.measured
  }

  lemma WaitingStart<K(!new)>(s: State<K>, key: K)
    requires Inv(s)
    ensures |Waiting(Next(s, Start(key)))| == |Waiting(s)| + 1 - if Wastes(s, Start(key)) then 1 else 0
  {
    assert s.starts !in s.measured;
    assert Waiting(Next(s, Start(key))) == Waiting(s) + {key};
    assert Wastes(s, Start(key)) <==> key in Waiting(s);
  }

  lemma ElementsSnoc(xs: seq<nat>, x: nat)
    ensures |Elements(xs + [x])| == |Elements(xs)| + if x in xs then 0 else 1
  {
    var ys := xs + [x];
    assert ys[..|ys| - 1] == xs && ys[|ys| - 1] == x;
    ElementOf(xs, x);
    var before := Elements(xs);
    assert Elements(ys) == before + {x};
    if x in xs {
      assert before + {x} == before;
    } else {
      assert |before + {x}| == |before| + 1;
    }
  }

  /** A lookup that finds an entry takes its key off the waiting ones. */
  lemma FoundWaitsNoMore<K(!new)>(s: State<K>, agent: nat, key: K)
    requires Inv(s) && Finds(s, Look(agent, key))
    ensures Waiting(Next(s, Look(agent, key))) == Waiting(s) - {key}
  {
    var r, x := Next(s, Look(agent, key)), s.table[key];
    assert r.table == s.table && r.measured == s.measured + [x];
    forall k ensures k in Waiting(r) <==> k in Waiting(s) - {key} {
      if k in s.table {
        InSnoc(s.measured, x, s.table[k]);
      }
    }
  }

  lemma InSnoc(xs: seq<nat>, x: nat, y: nat)
    ensures y in xs + [x] <==> y in xs || y == x
  {
    assert (xs + [x])[|xs|] == x;
  }

  lemma WaitingLook<K(!new)>(s: State<K>, agent: nat, key: K)
    requires Inv(s)
    ensures var r := Next(s, Look(agent, key));
            |Waiting(s)| + |Elements(s.measured)| == |Waiting(r)| + |Elements(r.measured)|
  {
    if Finds(s, Look(agent, key)) {
      ElementsSnoc(s.measured, s.table[key]);
      FoundWaitsNoMore(s, agent, key);
      assert key in Waiting(s) <==> s.table[key] !in s.measured;
    }
  }

  lemma WaitingCleared<K(!new)>(s: State<K>, op: Op<K>, key: K)
    requires Next(s, op).table == s.table - {key} && Next(s, op).measured == s.measured && Clears(s, op) == {key}
    ensures |Waiting(Next(s, op))| == |Waiting(s)| - if Wastes(s, op) then 1 else 0
  {
    assert Waiting(Next(s, op)) == Waiting(s) - {key};
    assert Wastes(s, op) <==> key in Waiting(s);
  }

  /**
   With lookup and delete apart, every start is measured, once or more, or else was overwritten,
   dropped, lost to a handler that deleted it for an earlier one, or waits.
   */
  lemma {:induction false} StartsConserved<K(!new)>(ops: seq<Op<K>>)
    ensures var s := Run(ops);
            Starts(ops)
            == |Elements(s.measured)| + Overwritten(ops) + Dropped(ops) + Lost(ops) + |Waiting(s)|
  {
    if ops == [] {
      assert Waiting(Run(ops)) == {};
    } else {
      var n := |ops| - 1;
      var s := Run(ops[..n]);
      StartsConserved(ops[..n]);
      RunInv(ops[..n]);
      match ops[n]
      case Start(key) => WaitingStart(s, key);
      case Look(agent, key) => WaitingLook(s, agent, key);
      case Done(agent) =>
        if agent in s.held {
          WaitingCleared(s, ops[n], s.held[agent].key);
        }
      case Drop(key) => WaitingCleared(s, ops[n], key);
    }
  }

  // ---------------------------------------------------------------- when a start is lost

  /** Start `i` of a key, which nobody has looked up, rewritten or removed among the first `n` operations. */
  ghost predicate Unseen<K>(ops: seq<Op<K>>, n: nat, key: K, i: int) {
    && 0 <= i < n <= |ops| && ops[i] == Start(key)
    && forall x :: i < x < n ==>
         && key !in Clears(Run(ops[..x]), ops[x])
         && !(ops[x].Look? && ops[x].key == key && Finds(Run(ops[..x]), ops[x]))
  }

  lemma {:induction false} UnseenWaits<K(!new)>(ops: seq<Op<K>>, n: nat, key: K, i: int)
    requires Unseen(ops, n, key, i)
    ensures key in Waiting(Run(ops[..n]))
  {
    assert ops[..n][..n - 1] == ops[..n - 1];
    RunInv(ops[..n - 1]);
    if i < n - 1 {
      assert Unseen(ops, n - 1, key, i);
      UnseenWaits(ops, n - 1, key, i);
    }
  }

  lemma {:induction false} WaitingIsUnseen<K(!new)>(ops: seq<Op<K>>, n: nat, key: K) returns (i: int)
    requires n <= |ops| && key in Waiting(Run(ops[..n]))
    ensures Unseen(ops, n, key, i)
  {
    assert ops[..n][..n - 1] == ops[..n - 1];
    if ops[n - 1] == Start(key) {
      i := n - 1;
    } else {
      assert key in Waiting(Run(ops[..n - 1]));
      i := WaitingIsUnseen(ops, n - 1, key);
    }
  }

  /** At position `j` a handler deletes a start written after its lookup, which nobody has looked up. */
  ghost predicate DeletesUnseen<K>(ops: seq<Op<K>>, j: nat) {
    && j < |ops| && ops[j].Done? && ops[j].agent in Run(ops[..j]).held
    && exists i :: Unseen(ops, j, Run(ops[..j]).held[ops[j].agent].key, i)
  }

  lemma DeletesUnseenExactly<K(!new)>(ops: seq<Op<K>>, j: nat)
    requires j < |ops|
    ensures DeletesUnseen(ops, j) <==> ops[j].Done? && Wastes(Run(ops[..j]), ops[j])
  {
    var s := Run(ops[..j]);
    if ops[j].Done? && ops[j].agent in s.held {
      var key := s.held[ops[j].agent].key;
      if key in Waiting(s) {
        var i := WaitingIsUnseen(ops, j, key);
      }
      if i :| Unseen(ops, j, key, i) {
        UnseenWaits(ops, j, key, i);
      }
    }
  }

  /** No start is lost exactly when no handler deletes one written after its lookup that nobody has looked up. */
  lemma {:induction false} NoneLostExactly<K(!new)>(ops: seq<Op<K>>)
    ensures Lost(ops) == 0 <==> forall j: nat :: j < |ops| ==> !DeletesUnseen(ops, j)
  {
    if ops != [] {
      var n := |ops| - 1;
      NoneLostExactly(ops[..n]);
      DeletesUnseenExactly(ops, n);
      forall j: nat | j < n ensures DeletesUnseen(ops, j) <==> DeletesUnseen(ops[..n], j) {
        DeletesUnseenExactly(ops, j);
        DeletesUnseenExactly(ops[..n], j);
        assert ops[..n][..j] == ops[..j];
      }
    }
  }

  /** A second query between the lookup and the delete of the first response is deleted unmeasured. */
  lemma SecondStartLost<K(!new)>(key: K)
    ensures var ops := [Start(key), Look(0, key), Start(key), Done(0)];
            && Uncontended(ops) && Run(ops).table == map[] && Run(ops).measured == [0]
            && Starts(ops) == 2 && Lost(ops) == 1
  {
    var a, b, c, d := Start(key), Look(0, key), Start(key), Done(0);
    Snoc([], a);
    assert [] + [a] == [a];
    Snoc([a], b);
    assert [a] + [b] == [a, b];
    Snoc([a, b], c);
    assert [a, b] + [c] == [a, b, c];
    Snoc([a, b, c], d);
    assert [a, b, c] + [d] == [a, b, c, d];
    assert Run([a, b]).held == map[0 := Held(key, 0)];
    assert key in Clears(Run([a, b, c]), d) && Run([a, b, c]).table == map[key := 1];
  }

  lemma Snoc<K(!new)>(ops: seq<Op<K>>, op: Op<K>)
    ensures var all, s := ops + [op], Run(ops);
            && Run(all) == Next(s, op)
            && Starts(all) == Starts(ops) + (if op.Start? then 1 else 0)
            && (Uncontended(all) <==> Uncontended(ops) && !Contended(s, op))
            && Lost(all) == Lost(ops) + if op.Done? && Wastes(s, op) then 1 else 0
  {
    assert (ops + [op])[..|ops|] == ops;
  }
}
