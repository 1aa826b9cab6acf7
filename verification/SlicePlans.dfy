/** slice_plan_init: how the CPUs are divided among child processes. */
module SlicePlans {
  import opened Ranges
  import opened CpuOrder
  import opened Topology

  const MINIMUM_CPUS_PER_SOCKET := 8
  const DEFAULT_MAX_CORES_PER_SLICE := 32

  // ---------------------------------------------------------------------------------------------
  // Sizes
  // ---------------------------------------------------------------------------------------------

  function CeilDiv(n: nat, m: nat): nat
    requires m > 0
  {
    n / m + if n % m != 0 then 1 else 0
  }

  lemma QuotientBounds(n: nat, c: nat)
    requires c > 0
    ensures c * (n / c) <= n < c * (n / c) + c && n % c == n - c * (n / c)
  {
  }

  lemma MulGrows(m: nat, a: nat, b: nat)
    requires a <= b
    ensures m * a <= m * b
  {
  }

  lemma MulNext(m: nat, q: nat)
    ensures m * (q + 1) == m * q + m
  {
  }

  lemma MulAtLeast(m: nat, q: nat)
    requires m > 0
    ensures m * q >= q
  {
  }

  lemma CeilDivBounds(n: nat, m: nat)
    requires n > 0 && m > 0
    ensures 1 <= CeilDiv(n, m) <= n && n <= m * CeilDiv(n, m)
  {
    QuotientBounds(n, m);
    MulAtLeast(m, n / m);
  }

  /** Slices of about equal size, none larger than the limit. */
  function SliceSize(n: nat, max: nat): nat
    requires n > 0 && max > 0
  {
    CeilDivBounds(n, max);
    n / CeilDiv(n, max)
  }

  lemma SliceSizeBounds(n: nat, max: nat)
    requires n > 0 && max > 0
    ensures 1 <= SliceSize(n, max) <= max
  {
    CeilDivBounds(n, max);
    var c := CeilDiv(n, max);
    var s := n / c;
    QuotientBounds(n, c);
    if s > max {
      MulNext(c, max);
      MulGrows(c, max + 1, s);
    }
  }

  /** As few slices as the limit allows, `c` of them for `n` cores, and then as large as they can all be. */
  predicate Even(n: nat, max: nat, c: nat, size: nat) {
    0 < c && (c - 1) * max < n <= c * max && size * c <= n < (size + 1) * c
  }

  lemma SliceSizeIsEven(n: nat, max: nat)
    requires n > 0 && max > 0
    ensures Even(n, max, CeilDiv(n, max), SliceSize(n, max))
  {
    var c := CeilDiv(n, max);
    CeilDivBounds(n, max);
    QuotientBounds(n, max);
    QuotientBounds(n, c);
    FewerTooFew(n, max);
    assert (n / c + 1) * c == c * (n / c) + c;
  }

  lemma FewerTooFew(n: nat, max: nat)
    requires n > 0 && max > 0
    ensures CeilDiv(n, max) >= 1 && (CeilDiv(n, max) - 1) * max < n
  {
    CeilDivBounds(n, max);
    QuotientBounds(n, max);
    var q := n / max;
    if n % max == 0 {
      assert (q - 1) * max == q * max - max;
    }
  }

  /** Only one number of slices and one size are even. */
  lemma EvenIsUnique(n: nat, max: nat, c: nat, size: nat, c': nat, size': nat)
    requires Even(n, max, c, size) && Even(n, max, c', size')
    ensures c == c' && size == size'
  {
    if c < c' { Scale(max, c, c' - 1); }
    if c' < c { Scale(max, c', c - 1); }
    if size < size' { Scale(c, size + 1, size'); }
    if size' < size { Scale(c, size' + 1, size); }
  }

  lemma Scale(m: nat, a: nat, b: nat)
    requires a <= b
    ensures a * m <= b * m
  {
  }

  // ---------------------------------------------------------------------------------------------
  // Cutting one NUMA node
  // ---------------------------------------------------------------------------------------------

  function ModuleOf(cpus: seq<Cpu>, core: Core): int {
    if core.start < |cpus| then cpus[core.start].moduleId else 0
  }

  /** Core `e` belongs to the module of the core before it. */
  predicate SameModule(cpus: seq<Cpu>, cores: seq<Core>, e: nat)
    requires 0 < e < |cores|
  {
    ModuleOf(cpus, cores[e - 1]) == ModuleOf(cpus, cores[e])
  }

  /** The end of a slice, moved up past the rest of the module it would cut. */
  function SliceEnd(cpus: seq<Cpu>, cores: seq<Core>, e: nat): (r: nat)
    requires 0 < e <= |cores|
    ensures e <= r <= |cores|
    decreases |cores| - e
  {
    if e < |cores| && SameModule(cpus, cores, e) then SliceEnd(cpus, cores, e + 1) else e
  }

  /** Where the slices of a node end, as core indices. */
  function Cuts(cpus: seq<Cpu>, cores: seq<Core>, begin: nat, size: nat): seq<nat>
    requires begin <= |cores| && size > 0
    decreases |cores| - begin
  {
    if |cores| - begin > size then
      var e := SliceEnd(cpus, cores, begin + size);
      [e] + Cuts(cpus, cores, e, size)
    else if begin < |cores| then [|cores|]
    else []
  }

  /** The CPU ranges of the core lists between successive cuts. */
  function SlicesAt(cores: seq<Core>, begin: nat, cuts: seq<nat>): seq<Range>
    decreases |cuts|
  {
    if cuts == [] then []
    else [if begin <= cuts[0] <= |cores| then Extent(cores[begin..cuts[0]]) else Range(0, 0)]
         + SlicesAt(cores, cuts[0], cuts[1..])
  }

  function NodeCuts(cpus: seq<Cpu>, cores: seq<Core>, max: nat): seq<nat>
    requires max > 0
  {
    if cores == [] then []
    else
      SliceSizeBounds(|cores|, max);
      Cuts(cpus, cores, 0, SliceSize(|cores|, max))
  }

  function NodeSlices(cpus: seq<Cpu>, cores: seq<Core>, max: nat): seq<Range>
    requires max > 0
  {
    SlicesAt(cores, 0, NodeCuts(cpus, cores, max))
  }

  /** The slices of the cores from `begin` on. */
  function SlicesFrom(cpus: seq<Cpu>, cores: seq<Core>, begin: nat, size: nat): seq<Range>
    requires begin <= |cores| && size > 0
  {
    SlicesAt(cores, begin, Cuts(cpus, cores, begin, size))
  }

  method NextCut(cpus: seq<Cpu>, cores: seq<Core>, start: nat) returns (e: nat)
    requires 0 < start <= |cores|
    ensures e == SliceEnd(cpus, cores, start)
  {
    e := start;
    while e != |cores| && ModuleOf(cpus, cores[e - 1]) == ModuleOf(cpus, cores[e])
      invariant start <= e <= |cores| && SliceEnd(cpus, cores, e) == SliceEnd(cpus, cores, start)
      decreases |cores| - e
    {
      e := e + 1;
    }
  }

  lemma SlicesStep(cpus: seq<Cpu>, cores: seq<Core>, begin: nat, size: nat)
    requires begin <= |cores| && 0 < size < |cores| - begin
    ensures var e := SliceEnd(cpus, cores, begin + size);
            SlicesFrom(cpus, cores, begin, size) == [Extent(cores[begin..e])] + SlicesFrom(cpus, cores, e, size)
  {
    var e := SliceEnd(cpus, cores, begin + size);
    var rest := Cuts(cpus, cores, e, size);
    assert ([e] + rest)[1..] == rest;
  }

  lemma SlicesLast(cpus: seq<Cpu>, cores: seq<Core>, begin: nat, size: nat)
    requires begin <= |cores| && size > 0 && |cores| - begin <= size
    ensures SlicesFrom(cpus, cores, begin, size) == if begin < |cores| then [Extent(cores[begin..])] else []
  {
    assert cores[begin..] == cores[begin..|cores|];
    if begin < |cores| {
      assert Cuts(cpus, cores, begin, size) == [|cores|];
      assert SlicesAt(cores, |cores|, [|cores|][1..]) == [];
    }
  }

  lemma Regroup(a: seq<Range>, r: Range, b: seq<Range>)
    ensures a + ([r] + b) == (a + [r]) + b
  {
  }

  /** The slicing loop over one node's cores. */
  method SplitNode(cpus: seq<Cpu>, cores: seq<Core>, max: nat, plan: seq<Range>) returns (split: seq<Range>)
    requires max > 0 && cores != []
    ensures split == plan + NodeSlices(cpus, cores, max)
  {
    split := plan;
    SliceSizeBounds(|cores|, max);
    var count := |cores| / max;
    if |cores| % max != 0 {
      count := count + 1;
    }
    var size := |cores| / count;
    assert size == SliceSize(|cores|, max);
    split := SplitBySize(cpus, cores, size, plan);
  }

  method SplitBySize(cpus: seq<Cpu>, cores: seq<Core>, size: nat, plan: seq<Range>) returns (split: seq<Range>)
    requires size > 0
    ensures split == plan + SlicesFrom(cpus, cores, 0, size)
  {
    split := plan;
    var begin := 0;
    while |cores| - begin > size
      invariant 0 <= begin <= |cores|
      invariant split + SlicesFrom(cpus, cores, begin, size) == plan + SlicesFrom(cpus, cores, 0, size)
      decreases |cores| - begin
    {
      var e := NextCut(cpus, cores, begin + size);
      SlicesStep(cpus, cores, begin, size);
      Regroup(split, Extent(cores[begin..e]), SlicesFrom(cpus, cores, e, size));
      split := split + [Extent(cores[begin..e])];
      begin := e;
    }
    SlicesLast(cpus, cores, begin, size);
    if begin != |cores| {
      split := split + [Extent(cores[begin..])];
    }
  }

  lemma {:induction false} SliceEndStays(cpus: seq<Cpu>, cores: seq<Core>, e: nat)
    requires 0 < e <= |cores|
    ensures forall j :: e <= j < SliceEnd(cpus, cores, e) ==> SameModule(cpus, cores, j)
    ensures SliceEnd(cpus, cores, e) < |cores| ==> !SameModule(cpus, cores, SliceEnd(cpus, cores, e))
    decreases |cores| - e
  {
    if e < |cores| && SameModule(cpus, cores, e) { SliceEndStays(cpus, cores, e + 1); }
  }

  /** Cores [b, e) make a slice: it does not end inside a module, it has `size` cores unless it is the
      last one, and it is longer only by the rest of the module of its `size`-th core. */
  ghost predicate SliceOk(cpus: seq<Cpu>, cores: seq<Core>, size: nat, b: nat, e: nat) {
    && size > 0 && b < e <= |cores|
    && (e < |cores| ==> b + size <= e && !SameModule(cpus, cores, e))
    && (forall j :: b + size <= j < e ==> SameModule(cpus, cores, j))
  }

  /** The start of slice `i`. */
  function SliceBegin(begin: nat, cuts: seq<nat>, i: nat): nat
    requires i <= |cuts|
  {
    if i == 0 then begin else cuts[i - 1]
  }

  ghost predicate CutsOk(cpus: seq<Cpu>, cores: seq<Core>, begin: nat, size: nat, cuts: seq<nat>) {
    && (if cuts == [] then begin == |cores| else cuts[|cuts| - 1] == |cores|)
    && (forall i :: 0 <= i < |cuts| ==> CutOk(cpus, cores, begin, size, cuts, i))
  }

  ghost predicate CutOk(cpus: seq<Cpu>, cores: seq<Core>, begin: nat, size: nat, cuts: seq<nat>, i: nat)
    requires i < |cuts|
  {
    SliceOk(cpus, cores, size, SliceBegin(begin, cuts, i), cuts[i])
  }

  lemma {:induction false} CutsAreOk(cpus: seq<Cpu>, cores: seq<Core>, begin: nat, size: nat)
    requires begin <= |cores| && size > 0
    ensures CutsOk(cpus, cores, begin, size, Cuts(cpus, cores, begin, size))
    decreases |cores| - begin
  {
    if |cores| - begin > size {
      var e := SliceEnd(cpus, cores, begin + size);
      SliceEndStays(cpus, cores, begin + size);
      CutsAreOk(cpus, cores, e, size);
      CutsPrepend(cpus, cores, begin, size, e, Cuts(cpus, cores, e, size));
    }
  }

  lemma CutsPrepend(cpus: seq<Cpu>, cores: seq<Core>, begin: nat, size: nat, e: nat, rest: seq<nat>)
    requires SliceOk(cpus, cores, size, begin, e) && CutsOk(cpus, cores, e, size, rest)
    ensures CutsOk(cpus, cores, begin, size, [e] + rest)
  {
    var cuts := [e] + rest;
    forall i | 0 <= i < |cuts| ensures CutOk(cpus, cores, begin, size, cuts, i) {
      if i > 0 { assert CutOk(cpus, cores, e, size, rest, i - 1); }
    }
  }

  /** The cores are cut evenly: as few slices as the limit allows, of equal size, except that a slice
      goes on to the end of a module and the last one has what is left. */
  ghost predicate CutEvenly(cpus: seq<Cpu>, cores: seq<Core>, max: nat, slices: seq<Range>) {
    exists c: nat, size: nat, cuts: seq<nat> :: Even(|cores|, max, c, size) && AreSlices(cpus, cores, size, cuts, slices)
  }

  /** The slices end at the cuts. */
  ghost predicate AreSlices(cpus: seq<Cpu>, cores: seq<Core>, size: nat, cuts: seq<nat>, slices: seq<Range>) {
    && |slices| == |cuts| && CutsOk(cpus, cores, 0, size, cuts)
    && forall i :: 0 <= i < |cuts| ==> SliceIs(cpus, cores, size, cuts, slices, i)
  }

  ghost predicate SliceIs(cpus: seq<Cpu>, cores: seq<Core>, size: nat, cuts: seq<nat>, slices: seq<Range>, i: nat)
    requires i < |cuts| == |slices|
  {
    && SliceOk(cpus, cores, size, SliceBegin(0, cuts, i), cuts[i])
    && slices[i] == Extent(cores[SliceBegin(0, cuts, i)..cuts[i]])
  }

  lemma {:induction false} SliceAt(cores: seq<Core>, begin: nat, cuts: seq<nat>, i: nat)
    requires i < |cuts| && SliceBegin(begin, cuts, i) <= cuts[i] <= |cores|
    ensures i < |SlicesAt(cores, begin, cuts)|
    ensures SlicesAt(cores, begin, cuts)[i] == Extent(cores[SliceBegin(begin, cuts, i)..cuts[i]])
    decreases |cuts|
  {
    if i > 0 { SliceAt(cores, cuts[0], cuts[1..], i - 1); }
  }

  lemma {:induction false} SlicesCount(cores: seq<Core>, begin: nat, cuts: seq<nat>)
    ensures |SlicesAt(cores, begin, cuts)| == |cuts|
    decreases |cuts|
  {
    if cuts != [] { SlicesCount(cores, cuts[0], cuts[1..]); }
  }

  lemma NodeCutEvenly(cpus: seq<Cpu>, cores: seq<Core>, max: nat)
    requires max > 0 && cores != []
    ensures CutEvenly(cpus, cores, max, NodeSlices(cpus, cores, max))
  {
    var n := |cores|;
    SliceSizeIsEven(n, max);
    SliceSizeBounds(n, max);
    NodeAreSlices(cpus, cores, SliceSize(n, max));
  }

  lemma NodeAreSlices(cpus: seq<Cpu>, cores: seq<Core>, size: nat)
    requires size > 0
    ensures AreSlices(cpus, cores, size, Cuts(cpus, cores, 0, size), SlicesFrom(cpus, cores, 0, size))
  {
    var cuts, slices := Cuts(cpus, cores, 0, size), SlicesFrom(cpus, cores, 0, size);
    CutsAreOk(cpus, cores, 0, size);
    SlicesCount(cores, 0, cuts);
    forall i | 0 <= i < |cuts| ensures SliceIs(cpus, cores, size, cuts, slices, i) {
      assert CutOk(cpus, cores, 0, size, cuts, i);
      SliceAt(cores, 0, cuts, i);
    }
  }

  /** There is only one even cut. */
  lemma EvenCutIsUnique(cpus: seq<Cpu>, cores: seq<Core>, max: nat, slices: seq<Range>)
    requires max > 0 && cores != [] && CutEvenly(cpus, cores, max, slices)
    ensures slices == NodeSlices(cpus, cores, max)
  {
    var c: nat, size: nat, cuts: seq<nat> :| Even(|cores|, max, c, size) && AreSlices(cpus, cores, size, cuts, slices);
    EvenSize(|cores|, max, c, size);
    OnlySlices(cpus, cores, size, cuts, slices);
  }

  lemma EvenSize(n: nat, max: nat, c: nat, size: nat)
    requires n > 0 && max > 0 && Even(n, max, c, size)
    ensures size == SliceSize(n, max) > 0
  {
    SliceSizeIsEven(n, max);
    SliceSizeBounds(n, max);
    EvenIsUnique(n, max, c, size, CeilDiv(n, max), SliceSize(n, max));
  }

  lemma OnlySlices(cpus: seq<Cpu>, cores: seq<Core>, size: nat, cuts: seq<nat>, slices: seq<Range>)
    requires size > 0 && AreSlices(cpus, cores, size, cuts, slices)
    ensures slices == SlicesFrom(cpus, cores, 0, size)
  {
    NodeAreSlices(cpus, cores, size);
    SameCuts(cpus, cores, 0, size, cuts, Cuts(cpus, cores, 0, size));
    SameSlices(cpus, cores, size, cuts, slices, SlicesFrom(cpus, cores, 0, size));
  }

  lemma SameSlices(cpus: seq<Cpu>, cores: seq<Core>, size: nat, cuts: seq<nat>, a: seq<Range>, b: seq<Range>)
    requires AreSlices(cpus, cores, size, cuts, a) && AreSlices(cpus, cores, size, cuts, b)
    ensures a == b
  {
    forall i | 0 <= i < |cuts| ensures a[i] == b[i] {
      assert SliceIs(cpus, cores, size, cuts, a, i) && SliceIs(cpus, cores, size, cuts, b, i);
    }
  }

  lemma {:induction false} SameCuts(cpus: seq<Cpu>, cores: seq<Core>, begin: nat, size: nat, a: seq<nat>, b: seq<nat>)
    requires CutsOk(cpus, cores, begin, size, a) && CutsOk(cpus, cores, begin, size, b)
    ensures a == b
    decreases |a|
  {
    NoCutsIff(cpus, cores, begin, size, a);
    NoCutsIff(cpus, cores, begin, size, b);
    if a != [] {
      assert CutOk(cpus, cores, begin, size, a, 0) && CutOk(cpus, cores, begin, size, b, 0);
      SameEnd(cpus, cores, size, begin, a[0], b[0]);
      CutsTail(cpus, cores, begin, size, a);
      CutsTail(cpus, cores, begin, size, b);
      SameCuts(cpus, cores, a[0], size, a[1..], b[1..]);
      assert a == [a[0]] + a[1..] && b == [b[0]] + b[1..];
    }
  }

  lemma NoCutsIff(cpus: seq<Cpu>, cores: seq<Core>, begin: nat, size: nat, cuts: seq<nat>)
    requires CutsOk(cpus, cores, begin, size, cuts)
    ensures cuts == [] <==> begin == |cores|
  {
    if cuts != [] { assert CutOk(cpus, cores, begin, size, cuts, 0); }
  }

  lemma SameEnd(cpus: seq<Cpu>, cores: seq<Core>, size: nat, b: nat, e: nat, e': nat)
    requires SliceOk(cpus, cores, size, b, e) && SliceOk(cpus, cores, size, b, e')
    ensures e == e'
  {
  }

  lemma CutsTail(cpus: seq<Cpu>, cores: seq<Core>, begin: nat, size: nat, cuts: seq<nat>)
    requires CutsOk(cpus, cores, begin, size, cuts) && cuts != []
    ensures CutsOk(cpus, cores, cuts[0], size, cuts[1..])
  {
    var rest := cuts[1..];
    forall i | 0 <= i < |rest| ensures CutOk(cpus, cores, cuts[0], size, rest, i) { assert CutOk(cpus, cores, begin, size, cuts, i + 1); }
  }

  /** The cores of one module, next to each other in a node, are in one slice. */
  lemma ModuleStaysTogether(cpus: seq<Cpu>, cores: seq<Core>, max: nat, x: nat, y: nat, i: nat)
    requires max > 0 && x < y < |cores|
    requires forall j :: x < j <= y ==> SameModule(cpus, cores, j)
    requires var cuts := NodeCuts(cpus, cores, max);
             i < |cuts| && SliceBegin(0, cuts, i) <= x < cuts[i]
    ensures var cuts := NodeCuts(cpus, cores, max); y < cuts[i]
  {
    SliceSizeBounds(|cores|, max);
    CutsAreOk(cpus, cores, 0, SliceSize(|cores|, max));
    assert CutOk(cpus, cores, 0, SliceSize(|cores|, max), Cuts(cpus, cores, 0, SliceSize(|cores|, max)), i);
  }

  /** A slice has at most `max` cores more than the rest of one module adds. */
  lemma SliceLimit(cpus: seq<Cpu>, cores: seq<Core>, max: nat, i: nat)
    requires max > 0 && cores != []
    requires i < |NodeCuts(cpus, cores, max)|
    ensures var cuts := NodeCuts(cpus, cores, max);
            forall j :: SliceBegin(0, cuts, i) + max <= j < cuts[i] ==> 0 < j < |cores| && SameModule(cpus, cores, j)
  {
    SliceSizeBounds(|cores|, max);
    CutsAreOk(cpus, cores, 0, SliceSize(|cores|, max));
    assert CutOk(cpus, cores, 0, SliceSize(|cores|, max), Cuts(cpus, cores, 0, SliceSize(|cores|, max)), i);
  }

  // ---------------------------------------------------------------------------------------------
  // Whole plans
  // ---------------------------------------------------------------------------------------------

  /** Where core `b` starts, or the cores end. */
  function CoreBegin(cores: seq<Core>, hi: nat, b: nat): nat {
    if b < |cores| then cores[b].start else hi
  }

  /** Consecutive cores form one range. */
  lemma SubExtent(cores: seq<Core>, lo: nat, hi: nat, b: nat, e: nat)
    requires Tiles(cores, lo, hi) && b < e <= |cores|
    ensures Extent(cores[b..e]).start == cores[b].start && Extent(cores[b..e]).end == cores[e - 1].end == CoreBegin(cores, hi, e)
    ensures Extent(cores[b..e]).count > 0
  {
    if b < e - 1 { TilesOrdered(cores, lo, hi, b, e - 1); }
    if e < |cores| { assert Joined(cores, e); }
  }

  lemma {:induction false} SlicesTile(cpus: seq<Cpu>, cores: seq<Core>, lo: nat, hi: nat, begin: nat, size: nat)
    requires Tiles(cores, lo, hi) && begin <= |cores| && size > 0
    ensures Tiles(SlicesFrom(cpus, cores, begin, size), CoreBegin(cores, hi, begin), hi)
    decreases |cores| - begin
  {
    if |cores| - begin > size {
      var e := SliceEnd(cpus, cores, begin + size);
      SlicesTile(cpus, cores, lo, hi, e, size);
      SliceTiles(cpus, cores, lo, hi, begin, size);
    } else {
      LastSliceTiles(cpus, cores, lo, hi, begin, size);
    }
  }

  lemma SliceTiles(cpus: seq<Cpu>, cores: seq<Core>, lo: nat, hi: nat, begin: nat, size: nat)
    requires Tiles(cores, lo, hi) && begin <= |cores| && 0 < size < |cores| - begin
    requires var e := SliceEnd(cpus, cores, begin + size); Tiles(SlicesFrom(cpus, cores, e, size), CoreBegin(cores, hi, e), hi)
    ensures Tiles(SlicesFrom(cpus, cores, begin, size), CoreBegin(cores, hi, begin), hi)
  {
    var e := SliceEnd(cpus, cores, begin + size);
    SubExtent(cores, lo, hi, begin, e);
    TilesPrepend(Extent(cores[begin..e]), SlicesFrom(cpus, cores, e, size), hi);
    SlicesStep(cpus, cores, begin, size);
  }

  lemma LastSliceTiles(cpus: seq<Cpu>, cores: seq<Core>, lo: nat, hi: nat, begin: nat, size: nat)
    requires Tiles(cores, lo, hi) && begin <= |cores| && size > 0 && |cores| - begin <= size
    ensures Tiles(SlicesFrom(cpus, cores, begin, size), CoreBegin(cores, hi, begin), hi)
  {
    SlicesLast(cpus, cores, begin, size);
    if begin < |cores| {
      SubExtent(cores, lo, hi, begin, |cores|);
      assert cores[begin..] == cores[begin..|cores|];
    }
  }

  lemma NodeTiles(cpus: seq<Cpu>, cores: seq<Core>, max: nat)
    requires max > 0 && GroupOk(cpus, cores)
    ensures NodeSlices(cpus, cores, max) != []
    ensures Tiles(NodeSlices(cpus, cores, max), Extent(cores).start, Extent(cores).end)
  {
    RunsInside(CoreIds(cpus), cores, Extent(cores).start, Extent(cores).end);
    SliceSizeBounds(|cores|, max);
    SlicesTile(cpus, cores, Extent(cores).start, Extent(cores).end, 0, SliceSize(|cores|, max));
  }

  /** The slices of each node. */
  function NodeLists(cpus: seq<Cpu>, nodes: seq<seq<Core>>, max: nat): seq<seq<Range>>
    requires max > 0
  {
    seq(|nodes|, i requires 0 <= i < |nodes| => NodeSlices(cpus, nodes[i], max))
  }

  /** The slices of a package that is too large, node by node. */
  function PackageSlices(cpus: seq<Cpu>, nodes: seq<seq<Core>>, max: nat): seq<Range>
    requires max > 0
  {
    Flat(NodeLists(cpus, nodes, max))
  }

  lemma PackageSlicesStep(cpus: seq<Cpu>, nodes: seq<seq<Core>>, max: nat, k: nat)
    requires max > 0 && 0 < k <= |nodes|
    ensures PackageSlices(cpus, nodes[..k], max) == PackageSlices(cpus, nodes[..k - 1], max) + NodeSlices(cpus, nodes[k - 1], max)
  {
    FlatPush(NodeLists(cpus, nodes[..k - 1], max), NodeSlices(cpus, nodes[k - 1], max));
    assert NodeLists(cpus, nodes[..k], max) == NodeLists(cpus, nodes[..k - 1], max) + [NodeSlices(cpus, nodes[k - 1], max)];
  }

  /** Where node `k` of a package that starts at `lo` begins. */
  function NodeBegin(nodes: seq<seq<Core>>, lo: nat, k: nat): nat
    requires k <= |nodes|
  {
    if k == 0 then lo else Extent(nodes[k - 1]).end
  }

  /** Node `i` starts where the one before it ends. */
  predicate NodeFollows(nodes: seq<seq<Core>>, lo: nat, i: nat)
    requires i < |nodes|
  {
    Extent(nodes[i]).start == NodeBegin(nodes, lo, i)
  }

  ghost predicate NodesInLine(nodes: seq<seq<Core>>, lo: nat) {
    forall i :: 0 <= i < |nodes| ==> NodeFollows(nodes, lo, i)
  }

  lemma NodesAreInLine(nodes: seq<seq<Core>>, lo: nat, hi: nat)
    requires Tiles(Extents(nodes), lo, hi)
    ensures NodesInLine(nodes, lo) && NodeBegin(nodes, lo, |nodes|) == hi
  {
    var rs := Extents(nodes);
    forall i | 0 <= i < |nodes| ensures NodeFollows(nodes, lo, i) {
      assert rs[i] == Extent(nodes[i]);
      if i > 0 { assert Joined(rs, i) && rs[i - 1] == Extent(nodes[i - 1]); }
    }
    if nodes != [] { assert rs[|rs| - 1] == Extent(nodes[|nodes| - 1]); }
  }

  lemma NodeListTiles(cpus: seq<Cpu>, nodes: seq<seq<Core>>, lo: nat, max: nat, i: nat)
    requires max > 0 && i < |nodes| && NodeFollows(nodes, lo, i) && NodeOk(cpus, nodes, i)
    ensures Tiles(NodeSlices(cpus, nodes[i], max), NodeBegin(nodes, lo, i), NodeBegin(nodes, lo, i + 1))
  {
    NodeTiles(cpus, nodes[i], max);
  }

  lemma PackageTiles(cpus: seq<Cpu>, nodes: seq<seq<Core>>, lo: nat, max: nat)
    requires max > 0 && AllNodesOk(cpus, nodes) && NodesInLine(nodes, lo)
    ensures Tiles(PackageSlices(cpus, nodes, max), lo, NodeBegin(nodes, lo, |nodes|))
  {
    var lists := NodeLists(cpus, nodes, max);
    var bounds := seq(|nodes| + 1, i requires 0 <= i <= |nodes| => NodeBegin(nodes, lo, i));
    forall i | 0 <= i < |lists| ensures TilesPart(lists, bounds, i) {
      assert NodeFollows(nodes, lo, i) && NodeOk(cpus, nodes, i);
      NodeListTiles(cpus, nodes, lo, max, i);
    }
    FlatTiles(lists, bounds);
  }

  datatype Plans = Plans(isolate: seq<Range>, heuristic: seq<Range>)

  /** The two plans after one more package: a small one restarts the heuristic plan from the plan
      by sockets. */
  function Extended(cpus: seq<Cpu>, before: Plans, p: Package, max: nat): Plans
    requires max > 0
  {
    var isolate := before.isolate + [Extent(p.cores)];
    if p.cores == [] then before  // a socket without CPUs
    else if |p.cores| <= max then Plans(isolate, isolate)
    else Plans(isolate, before.heuristic + PackageSlices(cpus, p.numaDomains, max))
  }

  function TopologyPlans(cpus: seq<Cpu>, packages: seq<Package>, max: nat): Plans
    requires max > 0
  {
    if packages == [] then Plans([], [])
    else Extended(cpus, TopologyPlans(cpus, packages[..|packages| - 1], max), packages[|packages| - 1], max)
  }

  ghost predicate PlansOk(plans: Plans, hi: nat) {
    && Tiles(plans.isolate, 0, hi) && Tiles(plans.heuristic, 0, hi)
    && Refines(plans.heuristic, plans.isolate)
  }

  lemma WholePackageOk(before: Plans, r: Range)
    requires PlansOk(before, r.start) && r.count > 0
    ensures PlansOk(Plans(before.isolate + [r], before.isolate + [r]), r.end)
  {
    TilesPush(before.isolate, 0, r.start, r);
    RefinesSelf(before.isolate + [r]);
  }

  lemma CutPackageOk(before: Plans, r: Range, fine: seq<Range>)
    requires PlansOk(before, r.start) && r.count > 0 && Tiles(fine, r.start, r.end)
    ensures PlansOk(Plans(before.isolate + [r], before.heuristic + fine), r.end)
  {
    TilesPush(before.isolate, 0, r.start, r);
    TilesConcat(before.heuristic, fine, 0, r.start, r.end);
    forall i | 0 <= i < |fine| ensures r.start <= fine[i].start && fine[i].end <= r.end {
      TilesInside(fine, r.start, r.end, i);
    }
    RefinesPush(before.heuristic, fine, before.isolate, r);
  }

  lemma PackageSlicesTile(cpus: seq<Cpu>, p: Package, max: nat)
    requires max > 0 && PackageOk(cpus, p)
    ensures Tiles(PackageSlices(cpus, p.numaDomains, max), Extent(p.cores).start, Extent(p.cores).end)
  {
    var r, nodes := Extent(p.cores), p.numaDomains;
    NodesAreInLine(nodes, r.start, r.end);
    PackageTiles(cpus, nodes, r.start, max);
  }

  lemma PackageNonEmpty(cpus: seq<Cpu>, p: Package)
    requires PackageOk(cpus, p)
    ensures p.cores != [] && Extent(p.cores).count > 0
  {
    RunsInside(CoreIds(cpus), p.cores, Extent(p.cores).start, Extent(p.cores).end);
  }

  lemma SmallExtendedOk(cpus: seq<Cpu>, before: Plans, p: Package, max: nat)
    requires 0 < |p.cores| <= max && Extent(p.cores).count > 0 && PlansOk(before, Extent(p.cores).start)
    ensures PlansOk(Extended(cpus, before, p, max), Extent(p.cores).end)
  {
    WholePackageOk(before, Extent(p.cores));
  }

  lemma LargeExtendedOk(cpus: seq<Cpu>, before: Plans, p: Package, max: nat)
    requires 0 < max < |p.cores| && Extent(p.cores).count > 0 && PlansOk(before, Extent(p.cores).start)
    requires Tiles(PackageSlices(cpus, p.numaDomains, max), Extent(p.cores).start, Extent(p.cores).end)
    ensures PlansOk(Extended(cpus, before, p, max), Extent(p.cores).end)
  {
    CutPackageOk(before, Extent(p.cores), PackageSlices(cpus, p.numaDomains, max));
  }

  lemma ExtendedOk(cpus: seq<Cpu>, before: Plans, p: Package, max: nat)
    requires max > 0 && PackageOk(cpus, p) && PlansOk(before, Extent(p.cores).start)
    ensures PlansOk(Extended(cpus, before, p, max), Extent(p.cores).end)
  {
    PackageNonEmpty(cpus, p);
    if |p.cores| <= max {
      SmallExtendedOk(cpus, before, p, max);
    } else {
      PackageSlicesTile(cpus, p, max);
      LargeExtendedOk(cpus, before, p, max);
    }
  }

  /** Where package `k` begins. */
  function PackageBegin(packages: seq<Package>, k: nat): nat
    requires k <= |packages|
  {
    if k == 0 then 0 else Extent(packages[k - 1].cores).end
  }

  /** Package `i` starts where the one before it ends. */
  predicate PackageFollows(packages: seq<Package>, i: nat)
    requires i < |packages|
  {
    Extent(packages[i].cores).start == PackageBegin(packages, i)
  }

  ghost predicate PackagesInLine(packages: seq<Package>) {
    forall i :: 0 <= i < |packages| ==> PackageFollows(packages, i)
  }

  lemma PackagesAreInLine(packages: seq<Package>, hi: nat)
    requires Tiles(PackageExtents(packages), 0, hi)
    ensures PackagesInLine(packages) && PackageBegin(packages, |packages|) == hi
  {
    var rs := PackageExtents(packages);
    forall i | 0 <= i < |packages| ensures PackageFollows(packages, i) {
      assert rs[i] == Extent(packages[i].cores);
      if i > 0 { assert Joined(rs, i) && rs[i - 1] == Extent(packages[i - 1].cores); }
    }
    if packages != [] { assert rs[|rs| - 1] == Extent(packages[|packages| - 1].cores); }
  }

  lemma PlansNextOk(cpus: seq<Cpu>, packages: seq<Package>, max: nat, k: nat)
    requires max > 0 && 0 < k <= |packages| && PackageFollows(packages, k - 1) && PackageAt(cpus, packages, k - 1)
    requires PlansOk(TopologyPlans(cpus, packages[..k - 1], max), PackageBegin(packages, k - 1))
    ensures PlansOk(TopologyPlans(cpus, packages[..k], max), PackageBegin(packages, k))
  {
    PlansStep(cpus, packages, max, k);
    ExtendedOk(cpus, TopologyPlans(cpus, packages[..k - 1], max), packages[k - 1], max);
  }

  /** Both plans cut up the CPUs of the packages seen so far, and the heuristic plan only divides
      what the plan by sockets keeps together. */
  lemma {:induction false} TopologyPlansOk(cpus: seq<Cpu>, packages: seq<Package>, max: nat, k: nat)
    requires max > 0 && AllPackagesOk(cpus, packages) && PackagesInLine(packages) && k <= |packages|
    ensures PlansOk(TopologyPlans(cpus, packages[..k], max), PackageBegin(packages, k))
    decreases k
  {
    if k > 0 {
      TopologyPlansOk(cpus, packages, max, k - 1);
      assert PackageFollows(packages, k - 1) && PackageAt(cpus, packages, k - 1);
      PlansNextOk(cpus, packages, max, k);
    }
  }

  lemma PlansStep(cpus: seq<Cpu>, packages: seq<Package>, max: nat, k: nat)
    requires max > 0 && 0 < k <= |packages|
    ensures TopologyPlans(cpus, packages[..k], max)
            == Extended(cpus, TopologyPlans(cpus, packages[..k - 1], max), packages[k - 1], max)
  {
    assert packages[..k][..k - 1] == packages[..k - 1];
  }

  // ---------------------------------------------------------------------------------------------
  // The method
  // ---------------------------------------------------------------------------------------------

  lemma Associate(a: seq<Range>, b: seq<Range>, c: seq<Range>)
    ensures a + (b + c) == (a + b) + c
  {
  }

  /** The slices of one package that is too large. */
  method SplitPackage(cpus: seq<Cpu>, nodes: seq<seq<Core>>, max: nat, plan: seq<Range>) returns (split: seq<Range>)
    requires max > 0
    ensures split == plan + PackageSlices(cpus, nodes, max)
  {
    split := plan;
    for n := 0 to |nodes|
      invariant split == plan + PackageSlices(cpus, nodes[..n], max)
    {
      PackageSlicesStep(cpus, nodes, max, n + 1);
      Associate(plan, PackageSlices(cpus, nodes[..n], max), NodeSlices(cpus, nodes[n], max));
      if |nodes[n]| == 0 {
        continue;
      }
      split := SplitNode(cpus, nodes[n], max, split);
    }
    assert nodes[..|nodes|] == nodes;
  }

  /** The plans of a system with a known topology. */
  method PlanByTopology(cpus: seq<Cpu>, packages: seq<Package>, max: nat) returns (isolate: seq<Range>, split: seq<Range>)
    requires max > 0
    ensures Plans(isolate, split) == TopologyPlans(cpus, packages, max)
  {
    isolate, split := [], [];
    for k := 0 to |packages|
      invariant Plans(isolate, split) == TopologyPlans(cpus, packages[..k], max)
    {
      var p := packages[k];
      PlansStep(cpus, packages, max, k + 1);
      if |p.cores| == 0 {
        continue;
      }
      isolate := isolate + [Extent(p.cores)];
      if |p.cores| <= max {
        split := isolate;
        continue;
      }
      split := SplitPackage(cpus, p.numaDomains, max, split);
    }
    assert packages[..|packages|] == packages;
  }

  ghost predicate AtMost(plan: seq<Range>, max: int) {
    forall i :: 0 <= i < |plan| ==> plan[i].count <= max
  }

  /** Range `i` of CPUs in stretches of `size`; the last one may be shorter. */
  predicate Stretch(plan: seq<Range>, cpus: nat, size: nat, i: nat)
    requires i < |plan|
  {
    plan[i].start == size * i && (if i < |plan| - 1 then plan[i].count == size else 0 < plan[i].count <= size && plan[i].end == cpus)
  }

  /** As many ranges of `size` CPUs as it takes, the last one with what is left. */
  ghost predicate InStretches(plan: seq<Range>, cpus: nat, size: nat) {
    size > 0 && |plan| == CeilDiv(cpus, size) && forall i :: 0 <= i < |plan| ==> Stretch(plan, cpus, size, i)
  }

  /** Whole stretches from 0 to `cpu`. */
  ghost predicate Whole(plan: seq<Range>, size: nat) {
    forall i :: 0 <= i < |plan| ==> plan[i] == Range(size * i, size)
  }

  lemma WholePush(plan: seq<Range>, size: nat)
    requires Whole(plan, size)
    ensures Whole(plan + [Range(size * |plan|, size)], size)
    ensures size * (|plan| + 1) == size * |plan| + size
  {
  }

  lemma StretchesEnd(plan: seq<Range>, cpus: nat, size: nat)
    requires Whole(plan, size) && size * |plan| < cpus <= size * |plan| + size
    ensures InStretches(plan + [Range(size * |plan|, cpus - size * |plan|)], cpus, size)
  {
    CeilDivIs(cpus, size, |plan|);
    var all := plan + [Range(size * |plan|, cpus - size * |plan|)];
    forall i | 0 <= i < |all| ensures Stretch(all, cpus, size, i) {
      if i < |plan| { assert all[i] == plan[i]; }
    }
  }

  /** Stretches make a plan. */
  lemma StretchesTile(plan: seq<Range>, cpus: nat, size: nat)
    requires cpus > 0 && InStretches(plan, cpus, size)
    ensures Tiles(plan, 0, cpus) && AtMost(plan, size)
  {
    CeilDivBounds(cpus, size);
    forall i | 0 <= i < |plan| ensures 0 < plan[i].count <= size { assert Stretch(plan, cpus, size, i); }
    forall i | 0 < i < |plan| ensures Joined(plan, i) {
      assert Stretch(plan, cpus, size, i) && Stretch(plan, cpus, size, i - 1);
      assert size * i == size * (i - 1) + size;
    }
    assert Stretch(plan, cpus, size, 0) && Stretch(plan, cpus, size, |plan| - 1);
  }

  /** Ranges of equal size, for as few of them as the limit allows; the last has what is left. */
  ghost predicate EvenPlan(plan: seq<Range>, cpus: nat, max: nat) {
    exists c: nat, size: nat :: Even(cpus, max, c, size) && InStretches(plan, cpus, size)
  }

  /** There is only one such plan. */
  lemma EvenPlanIsUnique(a: seq<Range>, b: seq<Range>, cpus: nat, max: nat)
    requires EvenPlan(a, cpus, max) && EvenPlan(b, cpus, max)
    ensures a == b
  {
    var c: nat, size: nat :| Even(cpus, max, c, size) && InStretches(a, cpus, size);
    var c': nat, size': nat :| Even(cpus, max, c', size') && InStretches(b, cpus, size');
    EvenIsUnique(cpus, max, c, size, c', size');
    forall i | 0 <= i < |a| ensures a[i] == b[i] { assert Stretch(a, cpus, size, i) && Stretch(b, cpus, size, i); }
  }

  /** The plan without a topology: CPUs, not cores, in order. */
  method PlanByCount(cpus: nat, max: nat) returns (plan: seq<Range>)
    requires cpus > 0 && max > 0
    ensures EvenPlan(plan, cpus, max)
    ensures Tiles(plan, 0, cpus) && AtMost(plan, max)
  {
    var count := (cpus - 1) / max + 1;
    CeilDivAgrees(cpus, max);
    SliceSizeBounds(cpus, max);
    SliceSizeIsEven(cpus, max);
    var size := cpus / count;
    plan := ByStretches(cpus, size);
    StretchesTile(plan, cpus, size);
  }

  method ByStretches(cpus: nat, size: nat) returns (plan: seq<Range>)
    requires cpus > 0 && size > 0
    ensures InStretches(plan, cpus, size)
  {
    plan := [];
    var cpu := 0;
    while cpu < cpus - size
      invariant 0 <= cpu < cpus && cpu == size * |plan| && Whole(plan, size)
      decreases cpus - cpu
    {
      WholePush(plan, size);
      plan := plan + [Range(cpu, size)];
      cpu := cpu + size;
    }
    StretchesEnd(plan, cpus, size);
    plan := plan + [Range(cpu, cpus - cpu)];
  }

  lemma DivIs(n: nat, m: nat, q: nat)
    requires m > 0 && m * q <= n < m * q + m
    ensures n / m == q && n % m == n - m * q
  {
    QuotientBounds(n, m);
    var d := n / m;
    MulNext(m, d);
    MulNext(m, q);
    if d < q { MulGrows(m, d + 1, q); }
    if q < d { MulGrows(m, q + 1, d); }
  }

  lemma CeilDivIs(n: nat, m: nat, q: nat)
    requires m > 0 && m * q < n <= m * q + m
    ensures CeilDiv(n, m) == q + 1
  {
    if n == m * q + m {
      MulNext(m, q);
      DivIs(n, m, q + 1);
    } else {
      DivIs(n, m, q);
    }
  }

  /** The two ways of rounding up in the source are the same. */
  lemma CeilDivAgrees(n: nat, m: nat)
    requires n > 0 && m > 0
    ensures (n - 1) / m + 1 == CeilDiv(n, m)
  {
    var q := (n - 1) / m;
    QuotientBounds(n - 1, m);
    CeilDivIs(n, m, q);
  }

  /** The limit in force: the default when none was given and a topology is known. */
  function EffectiveMax(max: nat, topology: bool): nat {
    if max == 0 && topology then DEFAULT_MAX_CORES_PER_SLICE else max
  }

  /** The topology decides the plans, unless the sockets have too few CPUs on average. */
  predicate UsesTopology(noFork: bool, max: int, cpus: nat, packages: nat) {
    && !noFork && max >= 0 && packages > 0
    && (max == 0 ==> cpus / packages > MINIMUM_CPUS_PER_SOCKET)
  }

  /** What decides the plans: the topology, or one range for the whole system, or the number of CPUs,
      in stretches that are no longer than the limit. */
  ghost predicate RightBranch(noFork: bool, maxCores: int, cpus: seq<Cpu>, packages: seq<Package>, plans: Plans)
    requires cpus != []
  {
    if UsesTopology(noFork, maxCores, |cpus|, |packages|) then
      plans == TopologyPlans(cpus, packages, EffectiveMax(maxCores, true))
    else
      && plans.isolate == plans.heuristic
      && if noFork || maxCores < 0 || EffectiveMax(maxCores, packages != []) == 0 then plans.heuristic == [Range(0, |cpus|)]
         else EvenPlan(plans.heuristic, |cpus|, EffectiveMax(maxCores, packages != []))
  }

  method SlicePlanInit(noFork: bool, maxCores: int, cpus: seq<Cpu>, packages: seq<Package>)
    returns (isolate: seq<Range>, heuristic: seq<Range>)
    requires |cpus| > 0 && (packages != [] ==> PackagesOf(cpus, packages, |cpus|))
    ensures PlansOk(Plans(isolate, heuristic), |cpus|)
    ensures RightBranch(noFork, maxCores, cpus, packages, Plans(isolate, heuristic))
  {
    var full := [Range(0, |cpus|)];
    RefinesSelf(full);
    if noFork || maxCores < 0 {
      return full, full;
    }
    var max := maxCores;
    if packages != [] {
      var byTopology := true;
      if max == 0 {
        max := DEFAULT_MAX_CORES_PER_SLICE;
        byTopology := |cpus| / |packages| > MINIMUM_CPUS_PER_SOCKET;
      }
      if byTopology {
        isolate, heuristic := PlanByTopology(cpus, packages, max);
        PackagesAreInLine(packages, |cpus|);
        TopologyPlansOk(cpus, packages, max, |packages|);
        assert packages[..|packages|] == packages;
        return;
      }
    }
    if max == 0 {
      return full, full;
    }
    var plan := PlanByCount(|cpus|, max);
    RefinesSelf(plan);
    return plan, plan;
  }
}
