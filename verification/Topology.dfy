/** build_topology: the sorted CPU array cut into packages, NUMA nodes and cores. */
module Topology {
  import opened Ranges
  import opened CpuOrder

  /** A core is the range of CPUs that are its threads. */
  type Core = Range

  datatype Package = Package(cores: seq<Core>, numaDomains: seq<seq<Core>>)

  // ---------------------------------------------------------------------------------------------
  // Maximal runs of equal ids
  // ---------------------------------------------------------------------------------------------

  ghost predicate Uniform(keys: seq<int>, r: Range) {
    r.end <= |keys| && forall x :: r.start <= x < r.end ==> keys[x] == keys[r.start]
  }

  /** `rs` cuts [lo, hi) into the longest stretches of equal keys. */
  ghost predicate Runs(keys: seq<int>, rs: seq<Range>, lo: nat, hi: nat) {
    && Tiles(rs, lo, hi)
    && (forall i :: 0 <= i < |rs| ==> OneKey(keys, rs, i))
    && (forall i :: 0 < i < |rs| ==> NewKey(keys, rs, i))
  }

  /** Range `i` has a single key. */
  ghost predicate OneKey(keys: seq<int>, rs: seq<Range>, i: nat)
    requires i < |rs|
  {
    Uniform(keys, rs[i])
  }

  /** Range `i` has another key than the one before it. */
  ghost predicate NewKey(keys: seq<int>, rs: seq<Range>, i: nat)
    requires 0 < i < |rs|
  {
    DiffersFrom(keys, rs[i - 1], rs[i])
  }

  ghost predicate DiffersFrom(keys: seq<int>, a: Range, b: Range) {
    a.start < |keys| && b.start < |keys| && keys[a.start] != keys[b.start]
  }

  lemma RunsPush(keys: seq<int>, rs: seq<Range>, lo: nat, mid: nat, r: Range)
    requires Runs(keys, rs, lo, mid) && r.start == mid && r.count > 0 && Uniform(keys, r)
    requires rs != [] ==> DiffersFrom(keys, rs[|rs| - 1], r)
    ensures Runs(keys, rs + [r], lo, r.end)
  {
    TilesPush(rs, lo, mid, r);
    var t := rs + [r];
    forall i | 0 <= i < |t| ensures OneKey(keys, t, i) {
      if i < |rs| { assert OneKey(keys, rs, i); }
    }
    forall i | 0 < i < |t| ensures NewKey(keys, t, i) {
      if i < |rs| { assert NewKey(keys, rs, i); }
    }
  }

  lemma RunsInside(keys: seq<int>, rs: seq<Range>, lo: nat, hi: nat)
    requires Runs(keys, rs, lo, hi) && lo < hi
    ensures rs != [] && hi <= |keys|
  {
    assert OneKey(keys, rs, |rs| - 1);
  }

  /** There is only one way to cut an interval into maximal runs. */
  lemma {:induction false} RunsUnique(keys: seq<int>, a: seq<Range>, b: seq<Range>, lo: nat, hi: nat)
    requires Runs(keys, a, lo, hi) && Runs(keys, b, lo, hi)
    ensures a == b
    decreases |a|
  {
    if a != [] && b != [] {
      SameFirst(keys, a, b, lo, hi);
      var mid := a[0].end;
      TailRuns(keys, a, lo, hi);
      TailRuns(keys, b, lo, hi);
      RunsUnique(keys, a[1..], b[1..], mid, hi);
      assert a == [a[0]] + a[1..] && b == [b[0]] + b[1..];
    } else if a != [] {
      TilesInside(a, lo, hi, 0);
    } else if b != [] {
      TilesInside(b, lo, hi, 0);
    }
  }

  lemma TailRuns(keys: seq<int>, rs: seq<Range>, lo: nat, hi: nat)
    requires Runs(keys, rs, lo, hi) && rs != []
    ensures Runs(keys, rs[1..], rs[0].end, hi)
  {
    var t := rs[1..];
    if t != [] { assert Joined(rs, 1); }
    forall i | 0 <= i < |t| ensures OneKey(keys, t, i) { assert OneKey(keys, rs, i + 1); }
    forall i | 0 < i < |t| ensures Joined(t, i) && NewKey(keys, t, i) {
      assert Joined(rs, i + 1) && NewKey(keys, rs, i + 1);
    }
  }

  lemma SameFirst(keys: seq<int>, a: seq<Range>, b: seq<Range>, lo: nat, hi: nat)
    requires Runs(keys, a, lo, hi) && Runs(keys, b, lo, hi) && a != [] && b != []
    ensures a[0] == b[0]
  {
    if a[0].end < b[0].end { NotLonger(keys, a, b, lo, hi); }
    if b[0].end < a[0].end { NotLonger(keys, b, a, lo, hi); }
  }

  lemma NotLonger(keys: seq<int>, a: seq<Range>, b: seq<Range>, lo: nat, hi: nat)
    requires Runs(keys, a, lo, hi) && Runs(keys, b, lo, hi) && a != [] && b != []
    ensures b[0].end <= a[0].end
  {
    TilesInside(b, lo, hi, 0);
    assert OneKey(keys, b, 0);
    if |a| > 1 { assert Joined(a, 1) && NewKey(keys, a, 1); }
  }

  // ---------------------------------------------------------------------------------------------
  // What the topology of an array is
  // ---------------------------------------------------------------------------------------------

  function CoreIds(cpus: seq<Cpu>): seq<int> {
    seq(|cpus|, i requires 0 <= i < |cpus| => cpus[i].coreId)
  }

  function NumaIds(cpus: seq<Cpu>): seq<int> {
    seq(|cpus|, i requires 0 <= i < |cpus| => cpus[i].numaId)
  }

  function PackageIds(cpus: seq<Cpu>): seq<int> {
    seq(|cpus|, i requires 0 <= i < |cpus| => cpus[i].packageId)
  }

  /** The CPUs from the first to the last core of a list. */
  function Extent(cores: seq<Core>): Range {
    if cores != [] && cores[0].start <= cores[|cores| - 1].end
    then Range(cores[0].start, cores[|cores| - 1].end - cores[0].start)
    else Range(0, 0)
  }

  function Extents(groups: seq<seq<Core>>): seq<Range> {
    seq(|groups|, i requires 0 <= i < |groups| => Extent(groups[i]))
  }

  function PackageExtents(packages: seq<Package>): seq<Range> {
    seq(|packages|, i requires 0 <= i < |packages| => Extent(packages[i].cores))
  }

  /** A non-empty list of the cores of [lo, hi). */
  ghost predicate CoresOf(cpus: seq<Cpu>, cores: seq<Core>, lo: nat, hi: nat) {
    lo < hi <= |cpus| && Runs(CoreIds(cpus), cores, lo, hi)
  }

  ghost predicate GroupOk(cpus: seq<Cpu>, cores: seq<Core>) {
    CoresOf(cpus, cores, Extent(cores).start, Extent(cores).end)
  }

  /** The NUMA nodes of [lo, hi), each with its cores. */
  ghost predicate NodesOf(cpus: seq<Cpu>, nodes: seq<seq<Core>>, lo: nat, hi: nat) {
    Runs(NumaIds(cpus), Extents(nodes), lo, hi) && AllNodesOk(cpus, nodes)
  }

  ghost predicate AllNodesOk(cpus: seq<Cpu>, nodes: seq<seq<Core>>) {
    forall i :: 0 <= i < |nodes| ==> NodeOk(cpus, nodes, i)
  }

  ghost predicate NodeOk(cpus: seq<Cpu>, nodes: seq<seq<Core>>, i: nat)
    requires i < |nodes|
  {
    GroupOk(cpus, nodes[i])
  }

  ghost predicate PackageOk(cpus: seq<Cpu>, p: Package) {
    GroupOk(cpus, p.cores) && NodesOf(cpus, p.numaDomains, Extent(p.cores).start, Extent(p.cores).end)
  }

  /** The packages of the first `hi` CPUs. */
  ghost predicate PackagesOf(cpus: seq<Cpu>, packages: seq<Package>, hi: nat) {
    && Runs(PackageIds(cpus), PackageExtents(packages), 0, hi)
    && AllPackagesOk(cpus, packages)
  }

  ghost predicate AllPackagesOk(cpus: seq<Cpu>, packages: seq<Package>) {
    forall i :: 0 <= i < |packages| ==> PackageAt(cpus, packages, i)
  }

  ghost predicate PackageAt(cpus: seq<Cpu>, packages: seq<Package>, i: nat)
    requires i < |packages|
  {
    PackageOk(cpus, packages[i])
  }

  lemma CoresExtent(cpus: seq<Cpu>, cores: seq<Core>, lo: nat, hi: nat)
    requires CoresOf(cpus, cores, lo, hi)
    ensures Extent(cores) == Range(lo, hi - lo) && GroupOk(cpus, cores)
  {
    RunsInside(CoreIds(cpus), cores, lo, hi);
  }

  ghost predicate Known(c: Cpu) {
    c.packageId >= 0 && c.coreId >= 0 && c.threadId >= 0
  }

  // ---------------------------------------------------------------------------------------------
  // The loops
  // ---------------------------------------------------------------------------------------------

  method PopulateCoreGroup(cpus: seq<Cpu>, begin: nat, end: nat) returns (cores: seq<Core>)
    requires begin < end <= |cpus|
    ensures CoresOf(cpus, cores, begin, end)
  {
    cores := [];
    ghost var keys := CoreIds(cpus);
    var first := begin;
    for last := begin to end
      invariant begin <= first <= last && (begin < last ==> first < last) && first < end
      invariant Runs(keys, cores, begin, first)
      invariant Uniform(keys, Range(first, last - first))
      invariant cores != [] ==> DiffersFrom(keys, cores[|cores| - 1], Range(first, 0))
    {
      assert keys[last] == cpus[last].coreId && keys[first] == cpus[first].coreId;
      if cpus[last].coreId != cpus[first].coreId {
        RunsPush(keys, cores, begin, first, Range(first, last - first));
        cores := cores + [Range(first, last - first)];
        first := last;
        UniformOne(keys, last);
      } else {
        UniformGrows(keys, first, last);
      }
    }
    RunsPush(keys, cores, begin, first, Range(first, end - first));
    cores := cores + [Range(first, end - first)];
  }

  lemma NodesPush(cpus: seq<Cpu>, nodes: seq<seq<Core>>, lo: nat, mid: nat, hi: nat, cores: seq<Core>)
    requires NodesOf(cpus, nodes, lo, mid) && CoresOf(cpus, cores, mid, hi)
    requires Uniform(NumaIds(cpus), Range(mid, hi - mid))
    requires nodes != [] ==> DiffersFrom(NumaIds(cpus), Extents(nodes)[|nodes| - 1], Range(mid, 0))
    ensures NodesOf(cpus, nodes + [cores], lo, hi)
    ensures Extents(nodes + [cores])[|nodes|] == Range(mid, hi - mid)
  {
    CoresExtent(cpus, cores, mid, hi);
    RunsPush(NumaIds(cpus), Extents(nodes), lo, mid, Range(mid, hi - mid));
    ExtentsPush(nodes, cores);
    NodeOkPush(cpus, nodes, cores);
  }

  lemma NodeOkPush(cpus: seq<Cpu>, nodes: seq<seq<Core>>, cores: seq<Core>)
    requires AllNodesOk(cpus, nodes) && GroupOk(cpus, cores)
    ensures AllNodesOk(cpus, nodes + [cores])
  {
    var all := nodes + [cores];
    forall i | 0 <= i < |all| ensures NodeOk(cpus, all, i) {
      if i < |nodes| {
        assert all[i] == nodes[i];
        assert NodeOk(cpus, nodes, i);
      } else {
        assert all[i] == cores;
      }
    }
  }

  lemma ExtentsPush(nodes: seq<seq<Core>>, cores: seq<Core>)
    ensures Extents(nodes + [cores]) == Extents(nodes) + [Extent(cores)]
  {
  }

  ghost predicate AllKnown(cpus: seq<Cpu>, lo: nat, hi: nat) {
    hi <= |cpus| && forall x :: lo <= x < hi ==> Known(cpus[x])
  }

  /** The CPUs from `first` to `info` are of one package; all NUMA nodes before `numaFirst` are
      closed and the one from there on is still open. */
  ghost predicate Scanned(cpus: seq<Cpu>, first: nat, numaFirst: nat, info: nat, nodes: seq<seq<Core>>) {
    && first <= numaFirst <= info <= |cpus| && (first < info ==> numaFirst < info)
    && AllKnown(cpus, first, info) && Uniform(PackageIds(cpus), Range(first, info - first))
    && NodesOf(cpus, nodes, first, numaFirst)
    && Uniform(NumaIds(cpus), Range(numaFirst, info - numaFirst))
    && (nodes != [] ==> DiffersFrom(NumaIds(cpus), Extents(nodes)[|nodes| - 1], Range(numaFirst, 0)))
  }

  lemma UniformOne(keys: seq<int>, x: nat)
    requires x < |keys|
    ensures Uniform(keys, Range(x, 1))
  {
  }

  lemma UniformGrows(keys: seq<int>, lo: nat, hi: nat)
    requires lo <= hi < |keys| && Uniform(keys, Range(lo, hi - lo)) && keys[hi] == keys[lo]
    ensures Uniform(keys, Range(lo, hi + 1 - lo))
  {
  }

  lemma ScanGoesOn(cpus: seq<Cpu>, first: nat, numaFirst: nat, info: nat, nodes: seq<seq<Core>>)
    requires Scanned(cpus, first, numaFirst, info, nodes) && info < |cpus| && Known(cpus[info])
    requires cpus[info].packageId == cpus[first].packageId && cpus[info].numaId == cpus[numaFirst].numaId
    ensures Scanned(cpus, first, numaFirst, info + 1, nodes)
  {
    UniformGrows(PackageIds(cpus), first, info);
    UniformGrows(NumaIds(cpus), numaFirst, info);
  }

  lemma ScanOpensNode(cpus: seq<Cpu>, first: nat, numaFirst: nat, info: nat, nodes: seq<seq<Core>>, cores: seq<Core>)
    requires Scanned(cpus, first, numaFirst, info, nodes) && first < info < |cpus| && Known(cpus[info])
    requires cpus[info].packageId == cpus[first].packageId && cpus[info].numaId != cpus[numaFirst].numaId
    requires CoresOf(cpus, cores, numaFirst, info)
    ensures Scanned(cpus, first, info, info + 1, nodes + [cores])
  {
    UniformGrows(PackageIds(cpus), first, info);
    NodesPush(cpus, nodes, first, numaFirst, info, cores);
  }

  /** The scan forward from `first`: stops at the next package or at the end, closing a NUMA node at
      every change of NUMA id; not ok if a core or thread id is unknown. */
  method ScanNodes(cpus: seq<Cpu>, first: nat) returns (ok: bool, info: nat, nodes: seq<seq<Core>>, numaFirst: nat)
    requires first < |cpus| && Known(cpus[first])
    ensures ok ==> Scanned(cpus, first, numaFirst, info, nodes) && first < info
    ensures ok ==> info == |cpus| || cpus[info].packageId != cpus[first].packageId
    ensures !ok ==> exists x :: first <= x < |cpus| && !Known(cpus[x])
  {
    ok, info, nodes, numaFirst := true, first, [], first;
    while info < |cpus|
      invariant Scanned(cpus, first, numaFirst, info, nodes)
    {
      if cpus[info].coreId < 0 || cpus[info].threadId < 0 {
        ok := false;
        assert !Known(cpus[info]);
        return;
      }
      if cpus[info].packageId != cpus[first].packageId {
        return;
      }
      if cpus[info].numaId != cpus[numaFirst].numaId {
        var cores := PopulateCoreGroup(cpus, numaFirst, info);
        ScanOpensNode(cpus, first, numaFirst, info, nodes, cores);
        nodes, numaFirst := nodes + [cores], info;
      } else {
        ScanGoesOn(cpus, first, numaFirst, info, nodes);
      }
      info := info + 1;
    }
  }

  /** One package, from its first CPU on. */
  method ScanPackage(cpus: seq<Cpu>, first: nat) returns (ok: bool, info: nat, pkg: Package)
    requires first < |cpus| && Known(cpus[first])
    ensures ok ==> first < info <= |cpus| && PackageOk(cpus, pkg) && Extent(pkg.cores) == Range(first, info - first)
    ensures ok ==> Uniform(PackageIds(cpus), Range(first, info - first)) && AllKnown(cpus, first, info)
    ensures ok ==> info == |cpus| || cpus[info].packageId != cpus[first].packageId
    ensures !ok ==> exists x :: first <= x < |cpus| && !Known(cpus[x])
  {
    var nodes, numaFirst;
    ok, info, nodes, numaFirst := ScanNodes(cpus, first);
    pkg := Package([], []);
    if ok {
      var cores := PopulateCoreGroup(cpus, first, info);
      CoresExtent(cpus, cores, first, info);
      var last := cores;
      if |nodes| + 1 == 1 {
        assert first == numaFirst;
      } else {
        last := PopulateCoreGroup(cpus, numaFirst, info);
      }
      NodesPush(cpus, nodes, first, numaFirst, info, last);
      pkg := Package(cores, nodes + [last]);
    }
  }

  lemma PackagesPush(cpus: seq<Cpu>, packages: seq<Package>, mid: nat, hi: nat, pkg: Package)
    requires mid < hi && PackagesOf(cpus, packages, mid) && PackageOk(cpus, pkg) && Extent(pkg.cores) == Range(mid, hi - mid)
    requires Uniform(PackageIds(cpus), Range(mid, hi - mid))
    requires packages != [] ==> DiffersFrom(PackageIds(cpus), PackageExtents(packages)[|packages| - 1], Range(mid, 0))
    ensures PackagesOf(cpus, packages + [pkg], hi)
    ensures PackageExtents(packages + [pkg])[|packages|] == Range(mid, hi - mid)
  {
    RunsPush(PackageIds(cpus), PackageExtents(packages), 0, mid, Range(mid, hi - mid));
    PackageExtentsPush(packages, pkg);
    PackageAtPush(cpus, packages, pkg);
  }

  lemma PackageAtPush(cpus: seq<Cpu>, packages: seq<Package>, pkg: Package)
    requires AllPackagesOk(cpus, packages) && PackageOk(cpus, pkg)
    ensures AllPackagesOk(cpus, packages + [pkg])
  {
    var all := packages + [pkg];
    forall i | 0 <= i < |all| ensures PackageAt(cpus, all, i) {
      if i < |packages| {
        assert all[i] == packages[i];
        assert PackageAt(cpus, packages, i);
      } else {
        assert all[i] == pkg;
      }
    }
  }

  lemma PackageExtentsPush(packages: seq<Package>, pkg: Package)
    ensures PackageExtents(packages + [pkg]) == PackageExtents(packages) + [Extent(pkg.cores)]
  {
  }

  /** No topology if any package, core or thread id is unknown; otherwise the packages, NUMA nodes
      and cores of the whole array. */
  method BuildTopology(cpus: seq<Cpu>) returns (packages: seq<Package>)
    requires |cpus| > 0
    ensures packages == [] <==> exists x :: 0 <= x < |cpus| && !Known(cpus[x])
    ensures packages != [] ==> PackagesOf(cpus, packages, |cpus|)
  {
    packages := [];
    if cpus[|cpus| - 1].packageId < 0 {
      assert !Known(cpus[|cpus| - 1]);
      return;
    }
    ghost var ids := PackageIds(cpus);
    var info := 0;
    while info < |cpus|
      invariant 0 <= info <= |cpus| && (info > 0 ==> packages != [])
      invariant AllKnown(cpus, 0, info) && PackagesOf(cpus, packages, info)
      invariant packages != [] && info < |cpus| ==> DiffersFrom(ids, PackageExtents(packages)[|packages| - 1], Range(info, 0))
    {
      if cpus[info].packageId < 0 || cpus[info].coreId < 0 || cpus[info].threadId < 0 {
        assert !Known(cpus[info]);
        return [];
      }
      var ok, end, pkg := ScanPackage(cpus, info);
      if !ok {
        return [];
      }
      PackagesPush(cpus, packages, info, end, pkg);
      packages := packages + [pkg];
      info := end;
    }
  }

  // ---------------------------------------------------------------------------------------------
  // Consequences of sorting
  // ---------------------------------------------------------------------------------------------

  ghost predicate NonDecreasing(keys: seq<int>) {
    forall i, j :: 0 <= i < j < |keys| ==> keys[i] <= keys[j]
  }

  /** In a non-decreasing list a maximal run holds every place with its key. */
  lemma RunHoldsItsKey(keys: seq<int>, rs: seq<Range>, p: nat, x: nat)
    requires NonDecreasing(keys) && Runs(keys, rs, 0, |keys|) && p < |rs| && x < |keys|
    ensures rs[p].start < |keys| && (rs[p].Holds(x) <==> keys[x] == keys[rs[p].start])
  {
    TilesInside(rs, 0, |keys|, p);
    assert OneKey(keys, rs, p);
    if x < rs[p].start && p > 0 { EdgeDiffers(keys, rs, |keys|, p); }
    if rs[p].end <= x && p + 1 < |rs| {
      assert Joined(rs, p + 1);
      EdgeDiffers(keys, rs, |keys|, p + 1);
    }
  }

  lemma SortedPackageIds(cpus: seq<Cpu>)
    requires Sorted(cpus) && AllKnown(cpus, 0, |cpus|) && forall x :: 0 <= x < |cpus| ==> CpuOk(cpus[x])
    ensures NonDecreasing(PackageIds(cpus))
  {
    forall i, j | 0 <= i < j < |cpus| ensures cpus[i].packageId <= cpus[j].packageId {
      assert Less(cpus[i], cpus[j]);
      HighOrder(cpus[i], cpus[j]);
    }
  }

  /** A sorted array of CPUs with known ids. */
  ghost predicate Ordered(cpus: seq<Cpu>) {
    Sorted(cpus) && AllKnown(cpus, 0, |cpus|) && forall y :: 0 <= y < |cpus| ==> CpuOk(cpus[y])
  }

  /** On a sorted array a package holds all CPUs of its id. */
  lemma PackageHoldsItsId(cpus: seq<Cpu>, packages: seq<Package>, p: nat, x: nat)
    requires PackagesOf(cpus, packages, |cpus|) && Ordered(cpus) && p < |packages| && x < |cpus|
    ensures PackageExtents(packages)[p].start < |cpus|
    ensures PackageExtents(packages)[p].Holds(x) <==> cpus[x].packageId == cpus[PackageExtents(packages)[p].start].packageId
  {
    SortedPackageIds(cpus);
    RunHoldsItsKey(PackageIds(cpus), PackageExtents(packages), p, x);
  }

  /** Keys differ across the boundary before run `p`. */
  lemma EdgeDiffers(keys: seq<int>, rs: seq<Range>, hi: nat, p: nat)
    requires Runs(keys, rs, 0, hi) && 0 < p < |rs|
    ensures 0 < rs[p].start < |keys| && keys[rs[p].start - 1] != keys[rs[p].start]
  {
    assert Joined(rs, p) && NewKey(keys, rs, p) && OneKey(keys, rs, p - 1);
  }
}
