/** Machine words, elapsed time, the cooldown gate and the few sums the other modules share. */
module Base {

  datatype Option<+T> = None | Some(value: T)

  const U64_SIZE := 0x1_0000_0000_0000_0000

  type u64 = x: int | 0 <= x < U64_SIZE
  type u32 = x: int | 0 <= x < 0x1_0000_0000

  /** Addition on `__u64` as the C code performs it: it wraps. */
  function Add64(a: u64, b: u64): u64 {
    (a + b) % U64_SIZE
  }

  function Lookup<K, V>(m: map<K, V>, k: K): Option<V> {
    if k in m then Some(m[k]) else None
  }

  function Min(a: int, b: int): int {
    if a < b then a else b
  }

  /** Elapsed microseconds; zero when the clock has not advanced past `start`. */
  function ElapsedUs(start: u64, now: u64): nat {
    if now > start then (now - start) / 1000 else 0
  }

  /** The test `now > last_event + cooldown` every rate-limited event passes through. */
  predicate CooldownOver(last: u64, cooldown: u64, now: u64) {
    now > Add64(last, cooldown)
  }

  /** The gate is the intended comparison exactly when the deadline fits in 64 bits. */
  lemma CooldownGateExact(last: u64, cooldown: u64)
    ensures (forall now: u64 :: CooldownOver(last, cooldown, now) <==> now > last + cooldown)
       <==> last + cooldown < U64_SIZE
  {
    if last + cooldown >= U64_SIZE {
      var top: u64 := U64_SIZE - 1;
      assert CooldownOver(last, cooldown, top);
    }
  }

  lemma MulMonotone(a: nat, b: nat, d: nat)
    requires a <= b
    ensures a * d <= b * d
  {
  }

  /** The sum of a sequence of integers. */
  function Sum(s: seq<int>): int {
    if s == [] then 0 else Sum(s[..|s| - 1]) + s[|s| - 1]
  }

  lemma {:induction false} SumUpdate(s: seq<int>, i: nat, x: int)
    requires i < |s|
    ensures Sum(s[i := x]) == Sum(s) - s[i] + x
  {
    var n := |s| - 1;
    if i == n {
      assert s[i := x][..n] == s[..n];
    } else {
      assert s[i := x][..n] == s[..n][i := x];
      SumUpdate(s[..n], i, x);
    }
  }

  lemma {:induction false} SumZero(s: seq<int>)
    requires forall i :: 0 <= i < |s| ==> s[i] == 0
    ensures Sum(s) == 0
  {
    if s != [] {
      SumZero(s[..|s| - 1]);
    }
  }

  lemma {:induction false} SumMonotone(s: seq<int>, t: seq<int>)
    requires |s| == |t|
    requires forall i :: 0 <= i < |s| ==> s[i] <= t[i]
    ensures Sum(s) <= Sum(t)
  {
    if s != [] {
      SumMonotone(s[..|s| - 1], t[..|t| - 1]);
    }
  }

  lemma {:induction false} SumAdd(s: seq<int>, t: seq<int>, u: seq<int>)
    requires |s| == |t| == |u|
    requires forall i :: 0 <= i < |s| ==> u[i] == s[i] + t[i]
    ensures Sum(u) == Sum(s) + Sum(t)
  {
    if s != [] {
      var n := |s| - 1;
      SumAdd(s[..n], t[..n], u[..n]);
    }
  }

  /** The sum of the values of a finite map, in whatever order they are visited. */
  ghost function MapSum<K(!new)>(m: map<K, int>): int
    decreases |m|
  {
    if m == map[] then 0
    else
      var k :| k in m;
      m[k] + MapSum(m - {k})
  }

  lemma {:induction false} MapSumRemove<K(!new)>(m: map<K, int>, k: K)
    requires k in m
    ensures MapSum(m) == m[k] + MapSum(m - {k})
    decreases |m|
  {
    var j :| j in m && MapSum(m) == m[j] + MapSum(m - {j});
    if j != k {
      MapSumRemove(m - {j}, k);
      MapSumRemove(m - {k}, j);
      assert m - {j} - {k} == m - {k} - {j};
    }
  }

  lemma {:induction false} MapSumUpdate<K(!new)>(m: map<K, int>, k: K, x: int)
    ensures MapSum(m[k := x]) == MapSum(m) + x - (if k in m then m[k] else 0)
  {
    MapSumRemove(m[k := x], k);
    if k in m {
      MapSumRemove(m, k);
      assert m[k := x] - {k} == m - {k};
    } else {
      assert m[k := x] - {k} == m;
    }
  }
}
