/**
 Matching a start to its finish through a map of start times. A later start overwrites an earlier
 one, a finish consumes the entry, and entries may be dropped at any time. The DNS matcher and the
 run-queue matcher are instances.
 */
module Span {
  import opened Base

  datatype Cause = Expired | Evicted

  datatype Op<K> =
    | Start(key: K, now: u64)
    | Finish(key: K, now: u64)
    | Drop(key: K, cause: Cause)

  function Next<K>(m: map<K, u64>, op: Op<K>): map<K, u64> {
    match op
    case Start(key, now) => m[key := now]
    case Finish(key, _) => m - {key}
    case Drop(key, _) => m - {key}
  }

  function Run<K>(ops: seq<Op<K>>): map<K, u64> {
    if ops == [] then map[] else Next(Run(ops[..|ops| - 1]), ops[|ops| - 1])
  }

  // ---------------------------------------------------------------- the map in terms of the history

  /** Among the first `n` operations, `j` is a start of `key` that nothing else on `key` has followed. */
  ghost predicate Open<K>(ops: seq<Op<K>>, n: nat, key: K, j: int) {
    && 0 <= j < n <= |ops|
    && ops[j].Start? && ops[j].key == key
    && forall x :: j < x < n ==> ops[x].key != key
  }

  lemma {:induction false} OpenStartIsEntry<K>(ops: seq<Op<K>>, n: nat, key: K, j: int)
    requires Open(ops, n, key, j)
    ensures key in Run(ops[..n]) && Run(ops[..n])[key] == ops[j].now
  {
    assert ops[..n][..n - 1] == ops[..n - 1];
    if j < n - 1 {
      OpenStartIsEntry(ops, n - 1, key, j);
    }
  }

  lemma {:induction false} EntryIsOpenStart<K>(ops: seq<Op<K>>, n: nat, key: K) returns (j: int)
    requires n <= |ops| && key in Run(ops[..n])
    ensures Open(ops, n, key, j)
  {
    assert ops[..n][..n - 1] == ops[..n - 1];
    if ops[n - 1].key == key {
      j := n - 1;
    } else {
      j := EntryIsOpenStart(ops, n - 1, key);
    }
  }

  /** The map refines the history: it holds a key exactly when a start is open, with that start's time. */
  lemma EntriesAreOpenStarts<K>(ops: seq<Op<K>>, key: K)
    ensures key in Run(ops) <==> exists j :: Open(ops, |ops|, key, j)
    ensures forall j :: Open(ops, |ops|, key, j) ==> Run(ops)[key] == ops[j].now
  {
    assert ops[..|ops|] == ops;
    if key in Run(ops) {
      var j := EntryIsOpenStart(ops, |ops|, key);
    }
    forall j | Open(ops, |ops|, key, j) ensures key in Run(ops) && Run(ops)[key] == ops[j].now {
      OpenStartIsEntry(ops, |ops|, key, j);
    }
  }

  /** Position `i` is a finish that finds the start at position `j`. */
  ghost predicate Matches<K>(ops: seq<Op<K>>, i: int, j: int) {
    0 <= i < |ops| && ops[i].Finish? && Open(ops, i, ops[i].key, j)
  }

  /** A finish finds an entry exactly when it has a match, and then measures from that start. */
  lemma FinishMeasures<K>(ops: seq<Op<K>>, i: nat)
    requires i < |ops| && ops[i].Finish?
    ensures ops[i].key in Run(ops[..i]) <==> exists j :: Matches(ops, i, j)
    ensures forall j :: Matches(ops, i, j) ==> Run(ops[..i])[ops[i].key] == ops[j].now
  {
    if ops[i].key in Run(ops[..i]) {
      var j := EntryIsOpenStart(ops, i, ops[i].key);
      assert Matches(ops, i, j);
    }
    forall j | Matches(ops, i, j) ensures ops[i].key in Run(ops[..i]) && Run(ops[..i])[ops[i].key] == ops[j].now {
      OpenStartIsEntry(ops, i, ops[i].key, j);
    }
  }

  /** Matching is one to one: a start is measured at most once, a finish measures one start. */
  lemma MatchingIsInjective<K>(ops: seq<Op<K>>, i: int, j: int, i': int, j': int)
    requires Matches(ops, i, j) && Matches(ops, i', j')
    ensures i == i' <==> j == j'
  {
  }

  // ---------------------------------------------------------------- accounting

  function Starts<K>(ops: seq<Op<K>>): nat {
    if ops == [] then 0 else Starts(ops[..|ops| - 1]) + if ops[|ops| - 1].Start? then 1 else 0
  }

  function Finishes<K>(ops: seq<Op<K>>): nat {
    if ops == [] then 0 else Finishes(ops[..|ops| - 1]) + if ops[|ops| - 1].Finish? then 1 else 0
  }

  /** Does the operation finish an entry whose start and finish time satisfy `p`? */
  function Hit<K(==)>(m: map<K, u64>, op: Op<K>, p: (u64, u64) -> bool): nat {
    if op.Finish? && op.key in m && p(m[op.key], op.now) then 1 else 0
  }

  /** Finishes that found an entry whose start and finish time satisfy `p`. */
  function MatchedWhere<K(==)>(ops: seq<Op<K>>, p: (u64, u64) -> bool): nat {
    if ops == [] then 0
    else
      var n := |ops| - 1;
      MatchedWhere(ops[..n], p) + Hit(Run(ops[..n]), ops[n], p)
  }

  function Matched<K(==)>(ops: seq<Op<K>>): nat {
    MatchedWhere(ops, (s, f) => true)
  }

  function Overwritten<K(==)>(ops: seq<Op<K>>): nat {
    if ops == [] then 0
    else
      var n := |ops| - 1;
      Overwritten(ops[..n]) + if ops[n].Start? && ops[n].key in Run(ops[..n]) then 1 else 0
  }

  function Dropped<K(==)>(ops: seq<Op<K>>, cause: Cause): nat {
    if ops == [] then 0
    else
      var n := |ops| - 1;
      Dropped(ops[..n], cause)
      + if ops[n].Drop? && ops[n].cause == cause && ops[n].key in Run(ops[..n]) then 1 else 0
  }

  lemma SizeAfter<K>(m: map<K, u64>, key: K, t: u64)
    ensures |m - {key}| == |m| - (if key in m then 1 else 0)
    ensures |m[key := t]| == |m| + (if key in m then 0 else 1)
  {
    assert |m| == |m.Keys| && |m - {key}| == |(m - {key}).Keys| && |m[key := t]| == |m[key := t].Keys|;
    assert (m - {key}).Keys == m.Keys - {key};
    assert m[key := t].Keys == m.Keys + {key};
  }

  /** Every start was matched, overwritten, expired, evicted, or is still open. */
  lemma {:induction false} StartsConserved<K>(ops: seq<Op<K>>)
    ensures Starts(ops) == Matched(ops) + Overwritten(ops) + Dropped(ops, Expired) + Dropped(ops, Evicted) + |Run(ops)|
  {
    if ops != [] {
      var n := |ops| - 1;
      StartsConserved(ops[..n]);
      SizeAfter(Run(ops[..n]), ops[n].key, if ops[n].Start? then ops[n].now else 0);
    }
  }

  lemma {:induction false} MatchedBounds<K>(ops: seq<Op<K>>, p: (u64, u64) -> bool, q: (u64, u64) -> bool)
    requires forall s, f :: p(s, f) ==> q(s, f)
    ensures MatchedWhere(ops, p) <= MatchedWhere(ops, q) <= Finishes(ops)
  {
    if ops != [] {
      MatchedBounds(ops[..|ops| - 1], p, q);
    }
  }

  lemma {:induction false} MatchedSplit<K>(
    ops: seq<Op<K>>, p: (u64, u64) -> bool, q: (u64, u64) -> bool, r: (u64, u64) -> bool)
    requires forall s, f :: (p(s, f) <==> q(s, f) || r(s, f)) && !(q(s, f) && r(s, f))
    ensures MatchedWhere(ops, p) == MatchedWhere(ops, q) + MatchedWhere(ops, r)
  {
    if ops != [] {
      MatchedSplit(ops[..|ops| - 1], p, q, r);
    }
  }

  lemma {:induction false} MatchedNone<K>(ops: seq<Op<K>>, p: (u64, u64) -> bool)
    requires forall s, f :: !p(s, f)
    ensures MatchedWhere(ops, p) == 0
  {
    if ops != [] {
      MatchedNone(ops[..|ops| - 1], p);
    }
  }

  lemma MatchedSame<K>(ops: seq<Op<K>>, p: (u64, u64) -> bool, q: (u64, u64) -> bool)
    requires forall s, f :: p(s, f) <==> q(s, f)
    ensures MatchedWhere(ops, p) == MatchedWhere(ops, q)
  {
    MatchedBounds(ops, p, q);
    MatchedBounds(ops, q, p);
  }

  /** One more operation. */
  lemma RunSnoc<K>(ops: seq<Op<K>>, op: Op<K>)
    ensures Run(ops + [op]) == Next(Run(ops), op)
  {
    assert (ops + [op])[..|ops|] == ops;
  }

  lemma MatchedSnoc<K>(ops: seq<Op<K>>, op: Op<K>, p: (u64, u64) -> bool)
    ensures MatchedWhere(ops + [op], p) == MatchedWhere(ops, p) + Hit(Run(ops), op, p)
  {
    assert (ops + [op])[..|ops|] == ops;
  }
}
