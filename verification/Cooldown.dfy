/**
 The cooldown every rate-limited event passes through, seen from one entry: attempts at a time, and
 resets when the entry goes. Which attempts raise an event is a matter of the history alone. The
 retransmission, TCP flow and UDP flow tables are instances.
 */
module Cooldown {
  import opened Base

  /** What an operation means to the gate: nothing, the loss of the entry, or an attempt. */
  datatype Mark = Skip | Reset | Try(now: u64)

  /** What a mark does to the event time. */
  function After(cooldown: u64, mark: Mark, last: u64): u64 {
    match mark
    case Skip => last
    case Reset => 0
    case Try(now) => if CooldownOver(last, cooldown, now) then now else last
  }

  /** The event time the entry remembers; zero when it has none. */
  function Last(cooldown: u64, marks: seq<Mark>): u64 {
    if marks == [] then 0
    else
      var n := |marks| - 1;
      After(cooldown, marks[n], Last(cooldown, marks[..n]))
  }

  predicate FiresAt(cooldown: u64, marks: seq<Mark>, i: int) {
    && 0 <= i < |marks| && marks[i].Try?
    && CooldownOver(Last(cooldown, marks[..i]), cooldown, marks[i].now)
  }

  /** Position `j` is the latest event among the first `n` marks, and nothing was reset since. */
  ghost predicate Latest(cooldown: u64, marks: seq<Mark>, n: int, j: int) {
    && 0 <= j < n <= |marks| && FiresAt(cooldown, marks, j)
    && forall x :: j < x < n ==> !marks[x].Reset? && !FiresAt(cooldown, marks, x)
  }

  lemma LatestStep(cooldown: u64, marks: seq<Mark>, n: nat, j: int)
    requires 0 < n <= |marks|
    ensures Latest(cooldown, marks, n, j) <==>
              if FiresAt(cooldown, marks, n - 1) then j == n - 1
              else !marks[n - 1].Reset? && Latest(cooldown, marks, n - 1, j)
  {
  }

  /** The remembered time is that of the latest event, and zero when there is none. */
  lemma {:induction false} LastIsLatest(cooldown: u64, marks: seq<Mark>, n: nat) returns (j: int)
    requires n <= |marks|
    ensures Last(cooldown, marks[..n]) != 0 ==> Latest(cooldown, marks, n, j)
    ensures forall x :: Latest(cooldown, marks, n, x) ==> Last(cooldown, marks[..n]) == marks[x].now != 0
  {
    j := -1;
    if n > 0 {
      assert marks[..n][..n - 1] == marks[..n - 1];
      j := LastIsLatest(cooldown, marks, n - 1);
      if FiresAt(cooldown, marks, n - 1) {
        j := n - 1;
      }
      LatestStep(cooldown, marks, n, j);
      forall x | Latest(cooldown, marks, n, x) ensures Last(cooldown, marks[..n]) == marks[x].now != 0 {
        LatestStep(cooldown, marks, n, x);
      }
    }
  }

  /** With an event remembered, an attempt raises one after its deadline. */
  lemma FiresAfter(cooldown: u64, marks: seq<Mark>, i: nat, j: int)
    requires i < |marks| && marks[i].Try? && Latest(cooldown, marks, i, j)
    ensures FiresAt(cooldown, marks, i) <==> marks[i].now > Add64(marks[j].now, cooldown)
  {
    var latest := LastIsLatest(cooldown, marks, i);
  }

  /**
   Which attempts raise an event: those after the deadline of the latest remembered event, and, with
   none remembered, those made once the machine has been up for longer than the cooldown, since a
   zero event time passes through the same comparison.
   */
  lemma FiresExactly(cooldown: u64, marks: seq<Mark>, i: nat)
    requires i < |marks| && marks[i].Try?
    ensures forall j :: Latest(cooldown, marks, i, j) ==>
              (FiresAt(cooldown, marks, i) <==> marks[i].now > Add64(marks[j].now, cooldown))
    ensures (forall j :: !Latest(cooldown, marks, i, j)) ==>
              (FiresAt(cooldown, marks, i) <==> marks[i].now > cooldown)
  {
    var latest := LastIsLatest(cooldown, marks, i);
  }

  ghost predicate NoOverflow(cooldown: u64, marks: seq<Mark>) {
    forall i :: 0 <= i < |marks| && marks[i].Try? ==> marks[i].now + cooldown < U64_SIZE
  }

  ghost predicate Monotone(marks: seq<Mark>) {
    forall i, j :: 0 <= i < j < |marks| && marks[i].Try? && marks[j].Try? ==> marks[i].now <= marks[j].now
  }

  /** Unless deadlines wrap and the clock runs backwards too, no event precedes the end of the first cooldown. */
  lemma {:induction false} NeedsUptime(cooldown: u64, marks: seq<Mark>, i: nat)
    requires FiresAt(cooldown, marks, i) && (NoOverflow(cooldown, marks) || Monotone(marks))
    ensures marks[i].now > cooldown
    decreases i
  {
    var j := LastIsLatest(cooldown, marks, i);
    if Last(cooldown, marks[..i]) != 0 {
      NeedsUptime(cooldown, marks, j);
      FiresAfter(cooldown, marks, i, j);
    }
  }

  /** Some event is the latest, and it is no earlier than a given one that was not reset since. */
  lemma {:induction false} LatestSince(cooldown: u64, marks: seq<Mark>, i: nat, n: nat) returns (j: nat)
    requires i < n <= |marks| && FiresAt(cooldown, marks, i)
    requires forall x :: i < x < n ==> !marks[x].Reset?
    ensures i <= j && Latest(cooldown, marks, n, j)
    decreases n
  {
    if FiresAt(cooldown, marks, n - 1) {
      j := n - 1;
    } else {
      j := LatestSince(cooldown, marks, i, n - 1);
    }
  }

  /** Two events are more than the cooldown apart unless the entry was lost in between. */
  lemma {:induction false} Spaced(cooldown: u64, marks: seq<Mark>, i: nat, j: nat)
    requires i < j && FiresAt(cooldown, marks, i) && FiresAt(cooldown, marks, j)
    requires NoOverflow(cooldown, marks) && forall x :: i < x < j ==> !marks[x].Reset?
    ensures marks[j].now > marks[i].now + cooldown
    decreases j
  {
    var latest := LatestSince(cooldown, marks, i, j);
    FiresAfter(cooldown, marks, j, latest);
    assert marks[latest].now + cooldown < U64_SIZE;
    if latest > i {
      Spaced(cooldown, marks, i, latest);
    }
  }

  // ---------------------------------------------------------------- tables as instances

  /** The marks of a run of `n` operations. */
  function Marks(n: nat, at: nat -> Mark): (marks: seq<Mark>)
    ensures |marks| == n
  {
    seq(n, i requires i >= 0 => at(i))
  }

  /** `time` is the event time a table remembers before each operation: it follows the marks. */
  ghost predicate Follows(cooldown: u64, n: nat, at: nat -> Mark, time: nat -> u64) {
    && time(0) == 0
    && forall i: nat :: i < n ==> time(i + 1) == After(cooldown, at(i), time(i))
  }

  lemma {:induction false} FollowsGate(cooldown: u64, n: nat, at: nat -> Mark, time: nat -> u64, i: nat)
    requires Follows(cooldown, n, at, time) && i <= n
    ensures Last(cooldown, Marks(n, at)[..i]) == time(i)
  {
    if i > 0 {
      FollowsGate(cooldown, n, at, time, i - 1);
      assert Marks(n, at)[..i][..i - 1] == Marks(n, at)[..i - 1];
    }
  }

  /** Where a table follows its marks, its events are the gate's. */
  lemma EventOf(cooldown: u64, n: nat, at: nat -> Mark, time: nat -> u64, i: nat)
    requires Follows(cooldown, n, at, time) && i < n
    ensures FiresAt(cooldown, Marks(n, at), i) <==> at(i).Try? && CooldownOver(time(i), cooldown, at(i).now)
  {
    FollowsGate(cooldown, n, at, time, i);
  }
}
