/** QueueDeviceSchedule: CPUs handed out from a queue that is shuffled each time it is used up. */
module QueueSchedule {
  import opened FiniteSets

  /** The numbers below `n`, each once. */
  ghost predicate IsPermutation(queue: seq<nat>, n: nat) {
    && |queue| == n
    && (forall i :: 0 <= i < n ==> queue[i] < n)
    && (forall i, j :: 0 <= i < j < n ==> queue[i] != queue[j])
  }

  lemma SwapKeeps(queue: seq<nat>, n: nat, i: nat, j: nat)
    requires IsPermutation(queue, n) && i < n && j < n
    ensures IsPermutation(queue[i := queue[j]][j := queue[i]], n)
  {
  }

  /** Every number is in a permutation: a missing one would leave too few for all the places. */
  lemma PermutationCovers(queue: seq<nat>, n: nat, x: nat)
    requires IsPermutation(queue, n) && x < n
    ensures x in queue
  {
    PrefixSize(queue, n, n);
    BelowSize(n);
    if x !in queue {
      forall y | y in Prefix(queue, n) ensures y in Below(n) - {x} { BelowHolds(n, y); }
      BelowHolds(n, x);
      SubsetSize(Prefix(queue, n), Below(n) - {x});
    }
  }

  /** The numbers below `n`. */
  ghost function Below(n: nat): set<nat> {
    if n == 0 then {} else Below(n - 1) + {n - 1}
  }

  lemma {:induction false} BelowHolds(n: nat, x: nat)
    ensures x in Below(n) <==> x < n
  {
    if n > 0 { BelowHolds(n - 1, x); }
  }

  ghost function Prefix(queue: seq<nat>, k: nat): set<nat>
    requires k <= |queue|
  {
    set i | 0 <= i < k :: queue[i]
  }

  lemma {:induction false} PrefixSize(queue: seq<nat>, n: nat, k: nat)
    requires IsPermutation(queue, n) && k <= n
    ensures |Prefix(queue, k)| == k
    decreases k
  {
    if k > 0 {
      PrefixSize(queue, n, k - 1);
      assert Prefix(queue, k) == Prefix(queue, k - 1) + {queue[k - 1]};
    }
  }

  lemma {:induction false} BelowSize(n: nat)
    ensures |Below(n)| == n
  {
    if n > 0 {
      BelowSize(n - 1);
      BelowHolds(n - 1, n - 1);
    }
  }

  // ---------------------------------------------------------------------------------------------
  // Shuffling
  // ---------------------------------------------------------------------------------------------

  function Swapped(queue: seq<nat>, i: nat, j: nat): seq<nat>
    requires i < |queue| && j < |queue|
  {
    queue[i := queue[j]][j := queue[i]]
  }

  /** What the first `k` places of a queue become, as the draws say: each is swapped with one not after it. */
  ghost function Shuffled(queue: seq<nat>, draws: nat -> nat, k: nat): (r: seq<nat>)
    requires k <= |queue|
    ensures |r| == |queue|
  {
    if k <= 1 then queue else Swapped(Shuffled(queue, draws, k - 1), k - 1, draws(k - 1) % k)
  }

  lemma {:induction false} ShuffledKeeps(queue: seq<nat>, draws: nat -> nat, n: nat, k: nat)
    requires IsPermutation(queue, n) && k <= n
    ensures IsPermutation(Shuffled(queue, draws, k), n)
    ensures forall i :: k <= i < n ==> Shuffled(queue, draws, k)[i] == queue[i]
    decreases k
  {
    if k > 1 {
      ShuffledKeeps(queue, draws, n, k - 1);
      SwapKeeps(Shuffled(queue, draws, k - 1), n, k - 1, draws(k - 1) % k);
    }
  }

  lemma {:induction false} SameDraws(queue: seq<nat>, d: nat -> nat, e: nat -> nat, k: nat)
    requires k <= |queue| && forall i: nat :: i < k ==> d(i) == e(i)
    ensures Shuffled(queue, d, k) == Shuffled(queue, e, k)
    decreases k
  {
    if k > 1 { SameDraws(queue, d, e, k - 1); }
  }

  lemma SwapTwice(queue: seq<nat>, i: nat, j: nat)
    requires i < |queue| && j < |queue|
    ensures Swapped(Swapped(queue, i, j), i, j) == queue
  {
  }

  /** Permutations that agree on all places but the first are the same. */
  lemma SameFirst(a: seq<nat>, b: seq<nat>, n: nat, k: nat)
    requires IsPermutation(a, n) && IsPermutation(b, n) && k <= 1 && forall i :: k <= i < n ==> a[i] == b[i]
    ensures a == b
  {
    if n > 0 {
      PermutationCovers(b, n, a[0]);
      assert forall i :: 0 < i < n ==> b[i] == a[i] != a[0];
    }
  }

  /** Every order of the queue comes out of the shuffle for some draws. */
  lemma {:induction false} EveryOrder(queue: seq<nat>, target: seq<nat>, n: nat, k: nat) returns (draws: nat -> nat)
    requires IsPermutation(queue, n) && IsPermutation(target, n) && k <= n
    requires forall i :: k <= i < n ==> queue[i] == target[i]
    ensures Shuffled(queue, draws, k) == target
    decreases k
  {
    draws := i => 0;
    if k <= 1 {
      SameFirst(queue, target, n, k);
    } else {
      var m: nat := k - 1;
      var j := PlaceOf(queue, target, n, k);
      SwapKeeps(target, n, m, j);
      assert forall i :: m <= i < n ==> queue[i] == Swapped(target, m, j)[i];
      var before := EveryOrder(queue, Swapped(target, m, j), n, m);
      draws := LastDraw(queue, target, k, j, before);
    }
  }

  /** The draws before, and then the one for the last place. */
  lemma LastDraw(queue: seq<nat>, target: seq<nat>, k: nat, j: nat, before: nat -> nat) returns (draws: nat -> nat)
    requires j < k <= |queue| == |target| && k > 1 && Shuffled(queue, before, k - 1) == Swapped(target, k - 1, j)
    ensures Shuffled(queue, draws, k) == target
  {
    draws := i => if i == k - 1 then j else before(i);
    SameDraws(queue, draws, before, k - 1);
    SwapTwice(target, k - 1, j);
    SmallMod(j, k);
    ShuffledLast(queue, draws, k);
  }

  lemma SmallMod(j: nat, k: nat)
    requires j < k
    ensures j % k == j
  {
  }

  lemma ShuffledLast(queue: seq<nat>, draws: nat -> nat, k: nat)
    requires 1 < k <= |queue|
    ensures Shuffled(queue, draws, k) == Swapped(Shuffled(queue, draws, k - 1), k - 1, draws(k - 1) % k)
  {
  }

  /** Where the last of the first `k` numbers of one queue is in the other. */
  lemma PlaceOf(queue: seq<nat>, target: seq<nat>, n: nat, k: nat) returns (j: nat)
    requires IsPermutation(queue, n) && IsPermutation(target, n) && 0 < k <= n
    requires forall i :: k <= i < n ==> queue[i] == target[i]
    ensures j < k && target[j] == queue[k - 1]
  {
    PermutationCovers(target, n, queue[k - 1]);
    assert forall i :: k <= i < n ==> target[i] == queue[i] != queue[k - 1];
    j :| 0 <= j < n && target[j] == queue[k - 1];
  }

  /** The numbers below `n`, in order. */
  function InOrder(n: nat): seq<nat> {
    seq(n, i => i)
  }

  // ---------------------------------------------------------------------------------------------
  // The scheduler
  // ---------------------------------------------------------------------------------------------

  /** How often CPU `x` was chosen. */
  function Times(chosen: seq<nat>, x: nat): nat {
    if chosen == [] then 0 else Times(chosen[..|chosen| - 1], x) + if chosen[|chosen| - 1] == x then 1 else 0
  }

  /** Once for each round that is over, and once more if it is in the part of the queue already
      handed out. */
  ghost predicate Fair(chosen: seq<nat>, queue: seq<nat>, used: nat, n: nat, rounds: nat) {
    && |chosen| == rounds * n + used
    && used <= |queue|
    && forall x: nat :: x < n ==> Times(chosen, x) == rounds + if x in queue[..used] then 1 else 0
  }

  lemma FairStep(chosen: seq<nat>, queue: seq<nat>, used: nat, n: nat, rounds: nat)
    requires IsPermutation(queue, n) && used < n && Fair(chosen, queue, used, n, rounds)
    ensures Fair(chosen + [queue[used]], queue, used + 1, n, rounds)
  {
    var next := chosen + [queue[used]];
    assert next[..|next| - 1] == chosen;
    assert queue[..used + 1] == queue[..used] + [queue[used]];
    assert queue[used] !in queue[..used];
  }

  /** A queue handed out completely is a whole round. */
  lemma RoundOver(chosen: seq<nat>, queue: seq<nat>, n: nat, rounds: nat)
    requires IsPermutation(queue, n) && Fair(chosen, queue, n, n, rounds)
    ensures Fair(chosen, queue, 0, n, rounds + 1)
  {
    assert queue[..n] == queue;
    forall x: nat | x < n ensures Times(chosen, x) == rounds + 1 { PermutationCovers(queue, n, x); }
    assert (rounds + 1) * n == rounds * n + n;
  }

  class QueueDeviceSchedule {
    const cpus: nat
    var index: nat
    var queue: seq<nat>
    var chosen: seq<nat>    // what was handed out so far
    ghost var rounds: nat

    ghost predicate Valid()
      reads this
    {
      && index < cpus
      && (queue == [] || IsPermutation(queue, cpus)) && (queue == [] ==> index == 0)
      && Fair(chosen, queue, index, cpus, rounds)
    }

    constructor (cpus: nat)
      requires cpus > 0
      ensures Valid() && this.cpus == cpus && chosen == []
    {
      this.cpus := cpus;
      index, queue, chosen, rounds := 0, [], [], 0;
    }

    /** shuffle_queue: std::shuffle swaps each place with one not after it, as the draws say. */
    method ShuffleQueue(draws: nat -> nat)
      requires cpus > 0 && (queue == [] || IsPermutation(queue, cpus))
      modifies `queue
      ensures IsPermutation(queue, cpus)
      ensures queue == Shuffled(if old(queue) == [] then InOrder(cpus) else old(queue), draws, cpus)
    {
      if |queue| == 0 {
        for i := 0 to cpus
          invariant queue == InOrder(i)
        {
          queue := queue + [i];
        }
      }
      ghost var start := queue;
      for i := 1 to |queue|
        invariant |queue| == cpus && queue == Shuffled(start, draws, i)
      {
        var j := draws(i) % (i + 1);
        queue := Swapped(queue, i, j);
      }
      ShuffledKeeps(start, draws, cpus, cpus);
    }

    /** reschedule_to_next_device, under the mutex. */
    method Reschedule(draws: nat -> nat) returns (next: nat)
      requires Valid()
      modifies this
      ensures Valid() && next < cpus && chosen == old(chosen) + [next]
    {
      if index == 0 {
        ghost var before := queue;
        ShuffleQueue(draws);
        assert before[..0] == [] && queue[..0] == [];
      }
      next := queue[index];
      FairStep(chosen, queue, index, cpus, rounds);
      chosen := chosen + [next];
      index := index + 1;
      if index == |queue| {
        RoundOver(chosen, queue, cpus, rounds);
        index := 0;
        rounds := rounds + 1;
      }
    }
  }

  /** At every moment the choice counts differ by at most one. */
  lemma CountsClose(s: QueueDeviceSchedule, x: nat, y: nat)
    requires s.Valid() && x < s.cpus && y < s.cpus
    ensures Times(s.chosen, x) <= Times(s.chosen, y) + 1
  {
  }

  lemma WholeRounds(m: nat, n: nat, rounds: nat, used: nat)
    requires used < n && m * n == rounds * n + used
    ensures rounds == m && used == 0
  {
    if m < rounds { MulStep(m, rounds, n); }
    if rounds < m { MulStep(rounds, m, n); }
  }

  lemma MulStep(a: nat, b: nat, n: nat)
    requires a < b
    ensures a * n + n <= b * n
  {
    assert (a + 1) * n == a * n + n;
    assert (a + 1) * n <= b * n;
  }

  /** After m times as many calls as there are CPUs, each was chosen exactly m times. */
  lemma ExactlyEven(s: QueueDeviceSchedule, m: nat, x: nat)
    requires s.Valid() && x < s.cpus && |s.chosen| == m * s.cpus
    ensures Times(s.chosen, x) == m
  {
    WholeRounds(m, s.cpus, s.rounds, s.index);
  }
}
