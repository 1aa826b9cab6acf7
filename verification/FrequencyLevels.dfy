/** Frequency levels by repeated midpoints, and stepping through them. */
module FrequencyLevels {
  import opened Bits

  // ---------------------------------------------------------------------------------------------
  // Sorting
  // ---------------------------------------------------------------------------------------------

  ghost predicate Descending(s: seq<int>) {
    forall i, j :: 0 <= i < j < |s| ==> s[i] >= s[j]
  }

  function Insert(x: int, s: seq<int>): seq<int> {
    if s == [] || x >= s[0] then [x] + s else [s[0]] + Insert(x, s[1..])
  }

  /** std::sort with std::greater */
  function Sort(s: seq<int>): seq<int> {
    if s == [] then [] else Insert(s[0], Sort(s[1..]))
  }

  lemma {:induction false} InsertAdds(x: int, s: seq<int>)
    ensures multiset(Insert(x, s)) == multiset(s) + multiset{x}
    decreases |s|
  {
    if s != [] && x < s[0] {
      assert s == [s[0]] + s[1..];
      InsertAdds(x, s[1..]);
    }
  }

  lemma {:induction false} InsertSorts(x: int, s: seq<int>)
    requires Descending(s)
    ensures Descending(Insert(x, s))
    decreases |s|
  {
    if s != [] && x < s[0] {
      InsertSorts(x, s[1..]);
      InsertAdds(x, s[1..]);
      var t := Insert(x, s[1..]);
      forall i | 0 <= i < |t| ensures s[0] >= t[i] {
        assert t[i] in multiset(t);
        assert t[i] in s[1..] || t[i] == x;
      }
    }
  }

  lemma {:induction false} SortSorts(s: seq<int>)
    ensures Descending(Sort(s)) && multiset(Sort(s)) == multiset(s)
    decreases |s|
  {
    if s != [] {
      SortSorts(s[1..]);
      InsertSorts(s[0], Sort(s[1..]));
      InsertAdds(s[0], Sort(s[1..]));
      assert s == [s[0]] + s[1..];
    }
  }

  lemma RestOf(s: seq<int>)
    requires s != []
    ensures multiset(s) == multiset{s[0]} + multiset(s[1..])
  {
    assert s == [s[0]] + s[1..];
  }

  lemma SameFirst(s: seq<int>, t: seq<int>)
    requires Descending(s) && Descending(t) && s != [] && t != [] && multiset(s) == multiset(t)
    ensures s[0] == t[0]
  {
    assert s[0] in multiset(t) && t[0] in multiset(s);
    var i :| 0 <= i < |t| && t[i] == s[0];
    var j :| 0 <= j < |s| && s[j] == t[0];
  }

  lemma Cancel(a: int, x: multiset<int>, y: multiset<int>)
    requires multiset{a} + x == multiset{a} + y
    ensures x == y
  {
    assert multiset{a} + x - multiset{a} == x && multiset{a} + y - multiset{a} == y;
  }

  /** There is only one way to put given numbers in order. */
  lemma {:induction false} SortedUnique(s: seq<int>, t: seq<int>)
    requires Descending(s) && Descending(t) && multiset(s) == multiset(t)
    ensures s == t
    decreases |s|
  {
    assert |multiset(s)| == |s| && |multiset(t)| == |t|;
    if s != [] {
      SameFirst(s, t);
      RestOf(s);
      RestOf(t);
      Cancel(s[0], multiset(s[1..]), multiset(t[1..]));
      SortedUnique(s[1..], t[1..]);
      assert s == [s[0]] + s[1..] && t == [t[0]] + t[1..];
    }
  }

  // ---------------------------------------------------------------------------------------------
  // One round
  // ---------------------------------------------------------------------------------------------

  function Mids(s: seq<int>): seq<int> {
    if |s| <= 1 then [] else [(s[0] + s[1]) / 2] + Mids(s[1..])
  }

  /** The numbers with the midpoints in their places. */
  function Interleave(s: seq<int>): seq<int> {
    if |s| <= 1 then s else [s[0], (s[0] + s[1]) / 2] + Interleave(s[1..])
  }

  lemma {:induction false} InterleaveHolds(s: seq<int>)
    ensures multiset(Interleave(s)) == multiset(s) + multiset(Mids(s))
    ensures s != [] ==> |Interleave(s)| == 2 * |s| - 1 && |Mids(s)| == |s| - 1
    decreases |s|
  {
    if |s| > 1 {
      InterleaveHolds(s[1..]);
      RestOf(s);
      var m := (s[0] + s[1]) / 2;
      Two(s[0], m, Interleave(s[1..]));
      One(m, Mids(s[1..]));
    }
  }

  lemma One(a: int, s: seq<int>)
    ensures multiset([a] + s) == multiset{a} + multiset(s)
  {
  }

  lemma Two(a: int, b: int, s: seq<int>)
    ensures multiset([a, b] + s) == multiset{a} + multiset{b} + multiset(s)
  {
    assert [a, b] + s == [a] + ([b] + s);
  }

  /** Adjacent numbers differ by `f` or by `c`. */
  ghost predicate Gaps(s: seq<int>, f: int, c: int) {
    forall i :: 0 < i < |s| ==> s[i - 1] - s[i] == f || s[i - 1] - s[i] == c
  }

  lemma {:induction false} GapsDescend(s: seq<int>, f: int, c: int, i: nat, j: nat)
    requires Gaps(s, f, c) && f >= 0 && c >= 0 && i <= j < |s|
    ensures s[i] >= s[j]
    decreases j
  {
    if i < j { GapsDescend(s, f, c, i, j - 1); }
  }

  /** The halves of a gap, rounded both ways. */
  lemma HalfGap(a: int, b: int, f: int, c: int)
    requires 0 <= f <= c <= f + 1 && (a - b == f || a - b == c)
    ensures var m := (a + b) / 2;
            && (a - m == f / 2 || a - m == (c + 1) / 2) && (m - b == f / 2 || m - b == (c + 1) / 2)
  {
  }

  lemma {:induction false} InterleaveGaps(s: seq<int>, f: int, c: int)
    requires Gaps(s, f, c) && 0 <= f <= c <= f + 1
    ensures Gaps(Interleave(s), f / 2, (c + 1) / 2)
    ensures s != [] ==> Interleave(s) != [] && Interleave(s)[0] == s[0]
    decreases |s|
  {
    if |s| > 1 {
      var rest := Interleave(s[1..]);
      assert Gaps(s[1..], f, c) by {
        forall i | 0 < i < |s[1..]| ensures s[1..][i - 1] - s[1..][i] == f || s[1..][i - 1] - s[1..][i] == c {
          assert s[1..][i - 1] == s[i] && s[1..][i] == s[i + 1];
        }
      }
      InterleaveGaps(s[1..], f, c);
      HalfGap(s[0], s[1], f, c);
      GapsPrepend(s[0], (s[0] + s[1]) / 2, rest, f / 2, (c + 1) / 2);
    }
  }

  lemma GapsPrepend(a: int, m: int, rest: seq<int>, f: int, c: int)
    requires rest != [] && Gaps(rest, f, c) && (a - m == f || a - m == c) && (m - rest[0] == f || m - rest[0] == c)
    ensures Gaps([a, m] + rest, f, c)
  {
    var s := [a, m] + rest;
    forall i | 0 < i < |s| ensures s[i - 1] - s[i] == f || s[i - 1] - s[i] == c {
      if i >= 3 { assert s[i] == rest[i - 2] && s[i - 1] == rest[i - 3]; }
    }
  }

  // ---------------------------------------------------------------------------------------------
  // Rounds
  // ---------------------------------------------------------------------------------------------

  /** Halved `k` times, rounded down each time. */
  function Down(d: nat, k: nat): nat {
    if k == 0 then d else Down(d, k - 1) / 2
  }

  /** Halved `k` times, rounded up each time. */
  function Up(d: nat, k: nat): nat {
    if k == 0 then d else (Up(d, k - 1) + 1) / 2
  }

  lemma {:induction false} UpDown(d: nat, k: nat)
    ensures Down(d, k) <= Up(d, k) <= Down(d, k) + 1
  {
    if k > 0 { UpDown(d, k - 1); }
  }

  lemma DivideTwice(d: nat, p: nat)
    requires p > 0
    ensures d / p / 2 == d / (2 * p)
  {
    var q, r := d / p, d % p;
    var h, b := q / 2, q % 2;
    Distribute(p, h, b);
    TimesBit(p, b);
    assert d == p * q + r && q == 2 * h + b;
    QuotientIs(d, 2 * p, h, p * b + r);
  }

  lemma TimesBit(p: nat, b: nat)
    requires b < 2
    ensures 0 <= p * b <= p
  {
    if b == 0 { assert p * b == 0; } else { assert p * b == p; }
  }

  lemma Distribute(p: nat, h: nat, b: nat)
    ensures p * (2 * h + b) == (2 * p) * h + p * b
  {
  }

  lemma QuotientIs(d: nat, p: nat, q: nat, r: nat)
    requires p > 0 && d == p * q + r && r < p
    ensures d / p == q
  {
    var q', r' := d / p, d % p;
    assert d == p * q' + r';
    if q' < q { MulStep(p, q', q); }
    if q < q' { MulStep(p, q, q'); }
  }

  lemma MulStep(p: nat, a: nat, b: nat)
    requires a < b
    ensures p * a + p <= p * b
  {
    assert p * (a + 1) == p * a + p;
    assert p * (a + 1) <= p * b;
  }

  /** Halving step by step is dividing by the power of two. */
  lemma {:induction false} DownIsFloor(d: nat, k: nat)
    ensures Down(d, k) == d / Pow2(k)
  {
    if k > 0 {
      DownIsFloor(d, k - 1);
      DivideTwice(d, Pow2(k - 1));
    }
  }

  /** The same, rounded up. */
  lemma {:induction false} UpIsCeiling(d: nat, k: nat)
    ensures Up(d, k) == (d + Pow2(k) - 1) / Pow2(k)
  {
    if d == 0 {
      UpOfZero(k);
      QuotientIs(Pow2(k) - 1, Pow2(k), 0, Pow2(k) - 1);
    } else {
      UpIsOneMore(d, k);
      OneMore(d - 1, Pow2(k));
    }
  }

  lemma {:induction false} UpOfZero(k: nat)
    ensures Up(0, k) == 0
  {
    if k > 0 { UpOfZero(k - 1); }
  }

  /** One less, halved down, and one more. */
  lemma {:induction false} UpIsOneMore(d: nat, k: nat)
    requires d > 0
    ensures Up(d, k) == (d - 1) / Pow2(k) + 1
  {
    if k > 0 {
      UpIsOneMore(d, k - 1);
      DivideTwice(d - 1, Pow2(k - 1));
    }
  }

  lemma OneMore(d: nat, p: nat)
    requires p > 0
    ensures (d + p) / p == d / p + 1
  {
    var q, r := d / p, d % p;
    assert p * (q + 1) == p * q + p;
    QuotientIs(d + p, p, q + 1, r);
  }

  function Lower(a: int, b: int): int {
    if a < b then a else b
  }

  /** The distance between two frequencies. */
  function Span(a: int, b: int): nat {
    if a < b then b - a else a - b
  }

  /** The list after `k` rounds: 2^k + 1 entries, the two given ones first, that go once sorted from
      the higher to the lower in steps of their distance over 2^k, rounded down or up. */
  ghost predicate Refined(levels: seq<int>, min: int, max: int, k: nat) {
    && |levels| == Pow2(k) + 1
    && levels[0] == max && levels[1] == min
    && Gaps(Sort(levels), Down(Span(min, max), k), Up(Span(min, max), k))
    && Sort(levels) != [] && Sort(levels)[0] == Lower(min, max) + Span(min, max)
    && Within(levels, Lower(min, max), Lower(min, max) + Span(min, max))
  }

  /** Sorting the list with its midpoints is putting each midpoint in its place. */
  lemma NextSorted(levels: seq<int>, f: int, c: int)
    requires Gaps(Sort(levels), f, c) && 0 <= f <= c <= f + 1
    ensures Sort(levels + Mids(Sort(levels))) == Interleave(Sort(levels))
  {
    var s := Sort(levels);
    SortSorts(levels);
    InterleaveHolds(s);
    InterleaveGaps(s, f, c);
    var t := Interleave(s);
    forall i, j | 0 <= i < j < |t| ensures t[i] >= t[j] { GapsDescend(t, f / 2, (c + 1) / 2, i, j); }
    SortSorts(levels + Mids(s));
    SortedUnique(Sort(levels + Mids(s)), t);
  }

  lemma MidsBetween(s: seq<int>, min: int, max: int)
    requires Within(s, min, max)
    ensures Within(Mids(s), min, max)
    decreases |s|
  {
    if |s| > 1 { MidsBetween(s[1..], min, max); }
  }

  ghost predicate Within(s: seq<int>, min: int, max: int) {
    forall i :: 0 <= i < |s| ==> min <= s[i] <= max
  }

  lemma SortedWithin(levels: seq<int>, min: int, max: int)
    requires Within(levels, min, max)
    ensures Within(Sort(levels), min, max) && |Sort(levels)| == |levels|
  {
    var s := Sort(levels);
    SortSorts(levels);
    assert |s| == |multiset(s)| == |levels|;
    forall i | 0 <= i < |s| ensures min <= s[i] <= max {
      assert s[i] in multiset(levels);
    }
  }

  lemma RefinedStep(levels: seq<int>, min: int, max: int, k: nat)
    requires Refined(levels, min, max, k)
    ensures Refined(levels + Mids(Sort(levels)), min, max, k + 1)
  {
    var s, lo, d := Sort(levels), Lower(min, max), Span(min, max);
    SortedWithin(levels, lo, lo + d);
    MidsBetween(s, lo, lo + d);
    InterleaveHolds(s);
    SpacingStep(levels, d, k);
  }

  /** One round halves the spacing and keeps the top. */
  lemma SpacingStep(levels: seq<int>, d: nat, k: nat)
    requires Sort(levels) != [] && Gaps(Sort(levels), Down(d, k), Up(d, k))
    ensures var next := Sort(levels + Mids(Sort(levels)));
            next != [] && next[0] == Sort(levels)[0] && Gaps(next, Down(d, k + 1), Up(d, k + 1))
  {
    UpDown(d, k);
    InterleaveGaps(Sort(levels), Down(d, k), Up(d, k));
    NextSorted(levels, Down(d, k), Up(d, k));
  }

  lemma RefinedStart(min: int, max: int)
    ensures Refined([max, min], min, max, 0)
  {
    SortPair(max, min);
  }

  lemma SortPair(a: int, b: int)
    ensures Sort([a, b]) == if a >= b then [a, b] else [b, a]
  {
    assert [a, b][1..] == [b] && [b][1..] == [];
    SortOne(b);
    assert Insert(a, [b]) == if a >= b then [a, b] else [b] + Insert(a, []);
  }

  lemma SortOne(b: int)
    ensures Sort([b]) == [b]
  {
    assert [b][1..] == [];
  }

  /** Pushes the midpoints of a sorted list. */
  method PushMids(levels: seq<int>, tmp: seq<int>) returns (r: seq<int>)
    ensures r == levels + Mids(tmp)
  {
    r := levels;
    if tmp == [] {
      return;
    }
    for i := 1 to |tmp|
      invariant r + Mids(tmp[i - 1..]) == levels + Mids(tmp)
    {
      MidsFirst(tmp[i - 1..]);
      assert tmp[i - 1..][1..] == tmp[i..];
      Regroup(r, (tmp[i] + tmp[i - 1]) / 2, Mids(tmp[i..]));
      r := r + [(tmp[i] + tmp[i - 1]) / 2];
    }
  }

  lemma MidsFirst(s: seq<int>)
    ensures |s| > 1 ==> Mids(s) == [(s[1] + s[0]) / 2] + Mids(s[1..])
  {
  }

  lemma Regroup(a: seq<int>, x: int, b: seq<int>)
    ensures a + ([x] + b) == (a + [x]) + b
  {
  }

  /** populate_frequency_levels. Frequencies are not negative, so that halving rounds down. */
  method Populate(min: nat, max: nat, total: nat) returns (levels: seq<int>, ghost k: nat)
    ensures Refined(levels, min, max, k)
    ensures |levels| >= total
    ensures k > 0 ==> Pow2(k - 1) + 1 < total
  {
    levels := [max, min];
    k := 0;
    RefinedStart(min, max);
    var tmp := levels;
    while |levels| < total
      invariant Refined(levels, min, max, k) && tmp == levels
      invariant k > 0 ==> Pow2(k - 1) + 1 < total
      decreases total - |levels|
    {
      RefinedStep(levels, min, max, k);
      tmp := Sort(tmp);
      levels := PushMids(levels, tmp);
      tmp := levels;
      k := k + 1;
    }
  }

  /** Both bounds on the gaps are the quotient by the number of intervals, rounded. */
  lemma GapsAreQuotients(levels: seq<int>, min: int, max: int, k: nat)
    requires Refined(levels, min, max, k)
    ensures var d, p := Span(min, max), Pow2(k); Gaps(Sort(levels), d / p, (d + p - 1) / p)
  {
    DownIsFloor(Span(min, max), k);
    UpIsCeiling(Span(min, max), k);
  }

  const STEP := 100000
  const MAX_LEVELS := 16

  /** How many levels are used: one for each 100 MHz, at most 16; none for a smaller span. */
  function LevelCount(min: nat, max: nat): nat {
    if max < min then 0 else if (max - min) / STEP < MAX_LEVELS then (max - min) / STEP else MAX_LEVELS
  }

  /** One level for each whole 100 MHz between the bounds, at most 16. */
  ghost predicate IsLevelCount(min: nat, max: nat, total: nat) {
    && total <= 16
    && (total > 0 ==> min + total * 100000 <= max)
    && (total < 16 ==> max < min + (total + 1) * 100000)
  }

  lemma LevelCountIs(min: nat, max: nat)
    ensures IsLevelCount(min, max, LevelCount(min, max))
  {
  }

  /** Stepping through the levels, around and around. */
  class FrequencyManager {
    var levels: seq<int>
    var total: nat
    var index: nat

    /** Enough levels were made. */
    ghost predicate Valid()
      reads this
    {
      total <= |levels|
    }

    constructor (min: nat, max: nat)
      ensures Valid() && index == 0 && total == LevelCount(min, max)
      ensures exists k: nat :: Refined(levels, min, max, k)
    {
      var wanted := LevelCount(min, max);
      var made, k := Populate(min, max, wanted);
      levels := made;
      total := wanted;
      index := 0;
    }

    method ChangeCoreFrequency() returns (frequency: int)
      requires Valid() && total > 0
      modifies this
      ensures Valid() && levels == old(levels) && total == old(total) && index == old(index) + 1
      ensures frequency == levels[old(index) % total]
    {
      frequency := levels[index % total];
      index := index + 1;
    }

    method Reset()
      requires Valid()
      modifies this
      ensures Valid() && levels == old(levels) && total == old(total) && index == 0
    {
      index := 0;
    }

    /** The frequencies of one test's normal runs, and the reset after it: every test goes through the
        same levels, from the first on. */
    method OneTest(runs: nat) returns (used: seq<int>)
      requires Valid() && total > 0 && index == 0
      modifies this
      ensures Valid() && levels == old(levels) && total == old(total) && index == 0
      ensures |used| == runs && forall j :: 0 <= j < runs ==> used[j] == levels[j % total]
    {
      used := [];
      for k := 0 to runs
        invariant Valid() && levels == old(levels) && total == old(total) && index == k
        invariant |used| == k && forall j :: 0 <= j < k ==> used[j] == levels[j % total]
      {
        var frequency := ChangeCoreFrequency();
        used := used + [frequency];
      }
      Reset();
    }
  }

  /** initial_core_frequency_setup. If the maximum is 100 MHz or more below the minimum, the level count
      is negative; compared as unsigned it asks for more levels than memory can hold, and there is no
      manager. */
  method Setup(min: nat, max: nat) returns (manager: FrequencyManager?)
    ensures manager == null <==> min - max >= STEP
    ensures manager != null ==>
              && fresh(manager) && manager.Valid() && manager.index == 0 && IsLevelCount(min, max, manager.total)
              && exists k: nat :: Refined(manager.levels, min, max, k)
  {
    if min - max >= STEP {
      return null;
    }
    LevelCountIs(min, max);
    manager := new FrequencyManager(min, max);
  }
}
