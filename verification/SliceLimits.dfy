/** How large the slices of the detailed plan are, and what a small package does to those before it.

    The framework promises slices of at most `max` cores, except that a slice may go on to the end of
    a module. Of the plan as a whole this is false: a small package restarts it from the plan by
    sockets. The lemmas here say which slices the plan has, and exactly when the promise is kept, with
    the exception and without it. */
module SliceLimits {
  import opened Ranges
  import opened CpuOrder
  import opened Topology
  import opened SlicePlans

  // ---------------------------------------------------------------------------------------------
  // The cores of a slice
  // ---------------------------------------------------------------------------------------------

  /** The cores from number `max` on all belong to the module of the core before them. */
  ghost predicate Continues(cpus: seq<Cpu>, cores: seq<Core>, max: nat) {
    forall j :: max <= j < |cores| && 0 < j ==> SameModule(cpus, cores, j)
  }

  /** The cores of a slice beyond the first `max` all continue one module. */
  ghost predicate Limited(cpus: seq<Cpu>, r: Range, max: nat) {
    exists cores :: CoresOf(cpus, cores, r.start, r.end) && Continues(cpus, cores, max)
  }

  /** A slice has at most `max` cores. */
  ghost predicate AtMostCores(cpus: seq<Cpu>, r: Range, max: nat) {
    exists cores :: CoresOf(cpus, cores, r.start, r.end) && |cores| <= max
  }

  ghost predicate AllLimited(cpus: seq<Cpu>, plan: seq<Range>, max: nat) {
    forall r :: r in plan ==> Limited(cpus, r, max)
  }

  ghost predicate AllAtMost(cpus: seq<Cpu>, plan: seq<Range>, max: nat) {
    forall r :: r in plan ==> AtMostCores(cpus, r, max)
  }

  /** A slice has only one list of cores. */
  lemma LimitedIff(cpus: seq<Cpu>, r: Range, cores: seq<Core>, max: nat)
    requires CoresOf(cpus, cores, r.start, r.end)
    ensures Limited(cpus, r, max) <==> Continues(cpus, cores, max)
  {
    if Limited(cpus, r, max) {
      var other :| CoresOf(cpus, other, r.start, r.end) && Continues(cpus, other, max);
      RunsUnique(CoreIds(cpus), cores, other, r.start, r.end);
    }
  }

  lemma AtMostIff(cpus: seq<Cpu>, r: Range, cores: seq<Core>, max: nat)
    requires CoresOf(cpus, cores, r.start, r.end)
    ensures AtMostCores(cpus, r, max) <==> |cores| <= max
  {
    if AtMostCores(cpus, r, max) {
      var other :| CoresOf(cpus, other, r.start, r.end) && |other| <= max;
      RunsUnique(CoreIds(cpus), cores, other, r.start, r.end);
    }
  }

  lemma SubTiles(rs: seq<Range>, lo: nat, hi: nat, b: nat, e: nat)
    requires Tiles(rs, lo, hi) && b < e <= |rs|
    ensures Tiles(rs[b..e], rs[b].start, rs[e - 1].end)
  {
    var t := rs[b..e];
    forall i | 0 < i < |t| ensures Joined(t, i) { assert Joined(rs, b + i); }
  }

  lemma SubRuns(keys: seq<int>, rs: seq<Range>, lo: nat, hi: nat, b: nat, e: nat)
    requires Runs(keys, rs, lo, hi) && b < e <= |rs|
    ensures Runs(keys, rs[b..e], rs[b].start, rs[e - 1].end)
  {
    var t := rs[b..e];
    SubTiles(rs, lo, hi, b, e);
    forall i | 0 <= i < |t| ensures OneKey(keys, t, i) { assert OneKey(keys, rs, b + i); }
    forall i | 0 < i < |t| ensures NewKey(keys, t, i) { assert NewKey(keys, rs, b + i); }
  }

  /** Consecutive cores of a node are the cores of the range they span. */
  lemma SubCores(cpus: seq<Cpu>, cores: seq<Core>, b: nat, e: nat)
    requires GroupOk(cpus, cores) && b < e <= |cores|
    ensures GroupOk(cpus, cores[b..e])
  {
    var lo, hi := Extent(cores).start, Extent(cores).end;
    SubRuns(CoreIds(cpus), cores, lo, hi, b, e);
    SubExtent(cores, lo, hi, b, e);
    TilesInside(cores, lo, hi, e - 1);
  }

  // ---------------------------------------------------------------------------------------------
  // The slices of one package
  // ---------------------------------------------------------------------------------------------

  lemma NodeSliceLimited(cpus: seq<Cpu>, cores: seq<Core>, max: nat, i: nat)
    requires max > 0 && GroupOk(cpus, cores) && cores != [] && i < |NodeCuts(cpus, cores, max)|
    ensures i < |NodeSlices(cpus, cores, max)| && Limited(cpus, NodeSlices(cpus, cores, max)[i], max)
  {
    var cuts := NodeCuts(cpus, cores, max);
    var b, e := SliceBegin(0, cuts, i), cuts[i];
    CutInRange(cpus, cores, max, i);
    SliceAt(cores, 0, cuts, i);
    SubCores(cpus, cores, b, e);
    SliceLimit(cpus, cores, max, i);
    CutContinues(cpus, cores, b, e, max);
    LimitedIff(cpus, Extent(cores[b..e]), cores[b..e], max);
  }

  lemma CutInRange(cpus: seq<Cpu>, cores: seq<Core>, max: nat, i: nat)
    requires max > 0 && cores != [] && i < |NodeCuts(cpus, cores, max)|
    ensures var cuts := NodeCuts(cpus, cores, max); SliceBegin(0, cuts, i) < cuts[i] <= |cores|
  {
    var size := SliceSize(|cores|, max);
    SliceSizeBounds(|cores|, max);
    CutsAreOk(cpus, cores, 0, size);
    assert CutOk(cpus, cores, 0, size, Cuts(cpus, cores, 0, size), i);
  }

  lemma CutContinues(cpus: seq<Cpu>, cores: seq<Core>, b: nat, e: nat, max: nat)
    requires b < e <= |cores|
    requires forall j :: b + max <= j < e ==> 0 < j < |cores| && SameModule(cpus, cores, j)
    ensures Continues(cpus, cores[b..e], max)
  {
    var part := cores[b..e];
    forall j | max <= j < |part| && 0 < j ensures SameModule(cpus, part, j) {
      assert part[j] == cores[b + j] && part[j - 1] == cores[b + j - 1] && SameModule(cpus, cores, b + j);
    }
  }

  lemma NodeLimited(cpus: seq<Cpu>, cores: seq<Core>, max: nat)
    requires max > 0 && GroupOk(cpus, cores)
    ensures AllLimited(cpus, NodeSlices(cpus, cores, max), max)
  {
    RunsInside(CoreIds(cpus), cores, Extent(cores).start, Extent(cores).end);
    SlicesCount(cores, 0, NodeCuts(cpus, cores, max));
    forall r | r in NodeSlices(cpus, cores, max) ensures Limited(cpus, r, max) {
      var i :| 0 <= i < |NodeSlices(cpus, cores, max)| && NodeSlices(cpus, cores, max)[i] == r;
      NodeSliceLimited(cpus, cores, max, i);
    }
  }

  /** A module ends between core `lo` and core `hi`, or the cores do. */
  ghost predicate ModuleEnds(cpus: seq<Cpu>, cores: seq<Core>, lo: nat, hi: nat) {
    exists j :: lo <= j <= hi && EndsAt(cpus, cores, j)
  }

  predicate EndsAt(cpus: seq<Cpu>, cores: seq<Core>, j: nat) {
    j == |cores| || (0 < j < |cores| && !SameModule(cpus, cores, j))
  }

  /** Whenever a slice has its `size` cores, a module ends before it has more than `max`. */
  ghost predicate RoomFrom(cpus: seq<Cpu>, cores: seq<Core>, begin: nat, size: nat, max: nat)
    requires begin <= |cores| && size > 0
    decreases |cores| - begin
  {
    |cores| - begin > size ==>
      && ModuleEnds(cpus, cores, begin + size, begin + max)
      && RoomFrom(cpus, cores, SliceEnd(cpus, cores, begin + size), size, max)
  }

  lemma EndInReach(cpus: seq<Cpu>, cores: seq<Core>, begin: nat, size: nat, max: nat)
    requires 0 < size < |cores| - begin
    ensures SliceEnd(cpus, cores, begin + size) - begin <= max <==> ModuleEnds(cpus, cores, begin + size, begin + max)
  {
    var e := SliceEnd(cpus, cores, begin + size);
    SliceEndStays(cpus, cores, begin + size);
    assert EndsAt(cpus, cores, e);
  }

  lemma SliceAtMostIff(cpus: seq<Cpu>, cores: seq<Core>, b: nat, e: nat, max: nat)
    requires GroupOk(cpus, cores) && b < e <= |cores|
    ensures AtMostCores(cpus, Extent(cores[b..e]), max) <==> e - b <= max
  {
    SubCores(cpus, cores, b, e);
    AtMostIff(cpus, Extent(cores[b..e]), cores[b..e], max);
  }

  lemma AllAtMostPrepend(cpus: seq<Cpu>, r: Range, rs: seq<Range>, max: nat)
    ensures AllAtMost(cpus, [r] + rs, max) <==> AtMostCores(cpus, r, max) && AllAtMost(cpus, rs, max)
  {
    if AllAtMost(cpus, [r] + rs, max) {
      assert r in [r] + rs;
      forall x | x in rs ensures AtMostCores(cpus, x, max) { assert x in [r] + rs; }
    }
  }

  lemma {:induction false} SlicesAtMostIff(cpus: seq<Cpu>, cores: seq<Core>, begin: nat, size: nat, max: nat)
    requires GroupOk(cpus, cores) && begin <= |cores| && 0 < size <= max
    ensures AllAtMost(cpus, SlicesFrom(cpus, cores, begin, size), max) <==> RoomFrom(cpus, cores, begin, size, max)
    decreases |cores| - begin
  {
    if |cores| - begin > size {
      var e := SliceEnd(cpus, cores, begin + size);
      SlicesAtMostIff(cpus, cores, e, size, max);
      SlicesStep(cpus, cores, begin, size);
      AllAtMostPrepend(cpus, Extent(cores[begin..e]), SlicesFrom(cpus, cores, e, size), max);
      SliceAtMostIff(cpus, cores, begin, e, max);
      EndInReach(cpus, cores, begin, size, max);
    } else {
      LastAtMost(cpus, cores, begin, size, max);
    }
  }

  lemma LastAtMost(cpus: seq<Cpu>, cores: seq<Core>, begin: nat, size: nat, max: nat)
    requires GroupOk(cpus, cores) && begin <= |cores| && 0 < size <= max && |cores| - begin <= size
    ensures AllAtMost(cpus, SlicesFrom(cpus, cores, begin, size), max)
  {
    SlicesLast(cpus, cores, begin, size);
    if begin < |cores| {
      SliceAtMostIff(cpus, cores, begin, |cores|, max);
      assert cores[begin..] == cores[begin..|cores|];
    }
  }

  /** Each slice of a node ends in time. */
  ghost predicate NodeHasRoom(cpus: seq<Cpu>, cores: seq<Core>, max: nat)
    requires max > 0
  {
    cores != [] ==> SliceSize(|cores|, max) > 0 && RoomFrom(cpus, cores, 0, SliceSize(|cores|, max), max)
  }

  lemma NodeAtMostIff(cpus: seq<Cpu>, cores: seq<Core>, max: nat)
    requires max > 0 && GroupOk(cpus, cores)
    ensures AllAtMost(cpus, NodeSlices(cpus, cores, max), max) <==> NodeHasRoom(cpus, cores, max)
  {
    RunsInside(CoreIds(cpus), cores, Extent(cores).start, Extent(cores).end);
    SliceSizeBounds(|cores|, max);
    SlicesAtMostIff(cpus, cores, 0, SliceSize(|cores|, max), max);
  }

  /** The slices of a package are those of its nodes. */
  lemma InPackage(cpus: seq<Cpu>, nodes: seq<seq<Core>>, max: nat, r: Range)
    requires max > 0
    ensures r in PackageSlices(cpus, nodes, max) <==> exists i :: 0 <= i < |nodes| && r in NodeSlices(cpus, nodes[i], max)
  {
    var lists := NodeLists(cpus, nodes, max);
    InFlat(lists, r);
    assert forall i :: 0 <= i < |nodes| ==> lists[i] == NodeSlices(cpus, nodes[i], max);
  }

  /** Cut by itself, a package keeps the promise. */
  lemma PackageLimited(cpus: seq<Cpu>, nodes: seq<seq<Core>>, max: nat)
    requires max > 0 && AllNodesOk(cpus, nodes)
    ensures AllLimited(cpus, PackageSlices(cpus, nodes, max), max)
  {
    forall r | r in PackageSlices(cpus, nodes, max) ensures Limited(cpus, r, max) {
      InPackage(cpus, nodes, max, r);
      var i :| 0 <= i < |nodes| && r in NodeSlices(cpus, nodes[i], max);
      assert NodeOk(cpus, nodes, i);
      NodeLimited(cpus, nodes[i], max);
    }
  }

  ghost predicate AllHaveRoom(cpus: seq<Cpu>, nodes: seq<seq<Core>>, max: nat)
    requires max > 0
  {
    forall i :: 0 <= i < |nodes| ==> NodeHasRoom(cpus, nodes[i], max)
  }

  lemma PackageAtMostIff(cpus: seq<Cpu>, nodes: seq<seq<Core>>, max: nat)
    requires max > 0 && AllNodesOk(cpus, nodes)
    ensures AllAtMost(cpus, PackageSlices(cpus, nodes, max), max) <==> AllHaveRoom(cpus, nodes, max)
  {
    if AllHaveRoom(cpus, nodes, max) {
      forall r | r in PackageSlices(cpus, nodes, max) ensures AtMostCores(cpus, r, max) {
        InPackage(cpus, nodes, max, r);
        var i :| 0 <= i < |nodes| && r in NodeSlices(cpus, nodes[i], max);
        assert NodeOk(cpus, nodes, i);
        NodeAtMostIff(cpus, nodes[i], max);
      }
    }
    if AllAtMost(cpus, PackageSlices(cpus, nodes, max), max) {
      forall i | 0 <= i < |nodes| ensures NodeHasRoom(cpus, nodes[i], max) {
        assert NodeOk(cpus, nodes, i);
        NodeAtMostIff(cpus, nodes[i], max);
        forall r | r in NodeSlices(cpus, nodes[i], max) ensures AtMostCores(cpus, r, max) {
          InPackage(cpus, nodes, max, r);
        }
      }
    }
  }

  // ---------------------------------------------------------------------------------------------
  // The slices of the plan
  // ---------------------------------------------------------------------------------------------

  predicate Small(p: Package, max: nat) {
    |p.cores| <= max
  }

  /** From package `i` on none of the first `k` packages is small. */
  ghost predicate NoneSmall(packages: seq<Package>, max: nat, i: nat, k: nat)
    requires k <= |packages|
  {
    forall j :: i <= j < k ==> !Small(packages[j], max)
  }

  ghost predicate NoneEmpty(packages: seq<Package>) {
    forall i :: 0 <= i < |packages| ==> packages[i].cores != []
  }

  /** What package `i` has in the plan for the first `k` packages: its own slices if neither it nor a
      later one is small, and otherwise one slice. */
  ghost function Part(cpus: seq<Cpu>, packages: seq<Package>, max: nat, k: nat, i: nat): seq<Range>
    requires max > 0 && i < k <= |packages|
  {
    if NoneSmall(packages, max, i, k) then PackageSlices(cpus, packages[i].numaDomains, max) else [Extent(packages[i].cores)]
  }

  ghost function Parts(cpus: seq<Cpu>, packages: seq<Package>, max: nat, k: nat): seq<seq<Range>>
    requires max > 0 && k <= |packages|
  {
    seq(k, i requires 0 <= i < k => Part(cpus, packages, max, k, i))
  }

  lemma SocketStep(cpus: seq<Cpu>, packages: seq<Package>, max: nat, k: nat)
    requires max > 0 && NoneEmpty(packages) && 0 < k <= |packages|
    ensures TopologyPlans(cpus, packages[..k], max).isolate
            == TopologyPlans(cpus, packages[..k - 1], max).isolate + [Extent(packages[k - 1].cores)]
  {
    PlansStep(cpus, packages, max, k);
  }

  /** The plan by sockets has one slice for each package. */
  lemma {:induction false} SocketsAreExtents(cpus: seq<Cpu>, packages: seq<Package>, max: nat, k: nat)
    requires max > 0 && NoneEmpty(packages) && k <= |packages|
    ensures TopologyPlans(cpus, packages[..k], max).isolate == PackageExtents(packages)[..k]
    decreases k
  {
    if k > 0 {
      SocketsAreExtents(cpus, packages, max, k - 1);
      SocketStep(cpus, packages, max, k);
      ExtentsStep(packages, k);
    }
  }

  lemma ExtentsStep(packages: seq<Package>, k: nat)
    requires 0 < k <= |packages|
    ensures PackageExtents(packages)[..k] == PackageExtents(packages)[..k - 1] + [Extent(packages[k - 1].cores)]
  {
    var rs := PackageExtents(packages);
    assert rs[..k] == rs[..k - 1] + [rs[k - 1]];
  }

  lemma HeuristicStep(cpus: seq<Cpu>, packages: seq<Package>, max: nat, k: nat)
    requires max > 0 && NoneEmpty(packages) && 0 < k <= |packages|
    ensures Small(packages[k - 1], max) ==>
              TopologyPlans(cpus, packages[..k], max).heuristic == TopologyPlans(cpus, packages[..k], max).isolate
    ensures !Small(packages[k - 1], max) ==>
              TopologyPlans(cpus, packages[..k], max).heuristic
              == TopologyPlans(cpus, packages[..k - 1], max).heuristic + PackageSlices(cpus, packages[k - 1].numaDomains, max)
  {
    PlansStep(cpus, packages, max, k);
  }

  /** After a small package there is one slice for each package. */
  lemma PartsRestart(cpus: seq<Cpu>, packages: seq<Package>, max: nat, k: nat)
    requires max > 0 && 0 < k <= |packages| && Small(packages[k - 1], max)
    ensures Flat(Parts(cpus, packages, max, k)) == PackageExtents(packages)[..k]
  {
    var sockets := PackageExtents(packages)[..k];
    forall i | 0 <= i < k ensures Parts(cpus, packages, max, k)[i] == Singles(sockets)[i] {
      assert !NoneSmall(packages, max, i, k);
    }
    assert Parts(cpus, packages, max, k) == Singles(sockets);
    FlatSingles(sockets);
  }

  /** A large package leaves what the plan has for the packages before it. */
  lemma PartsGrow(cpus: seq<Cpu>, packages: seq<Package>, max: nat, k: nat)
    requires max > 0 && 0 < k <= |packages| && !Small(packages[k - 1], max)
    ensures Flat(Parts(cpus, packages, max, k))
            == Flat(Parts(cpus, packages, max, k - 1)) + PackageSlices(cpus, packages[k - 1].numaDomains, max)
  {
    var before, own := Parts(cpus, packages, max, k - 1), PackageSlices(cpus, packages[k - 1].numaDomains, max);
    forall i | 0 <= i < k ensures Parts(cpus, packages, max, k)[i] == (before + [own])[i] {
      if i < k - 1 { assert NoneSmall(packages, max, i, k) <==> NoneSmall(packages, max, i, k - 1); }
    }
    assert Parts(cpus, packages, max, k) == before + [own];
    FlatPush(before, own);
  }

  /** The detailed plan, package by package. */
  lemma {:induction false} HeuristicIsParts(cpus: seq<Cpu>, packages: seq<Package>, max: nat, k: nat)
    requires max > 0 && NoneEmpty(packages) && k <= |packages|
    ensures TopologyPlans(cpus, packages[..k], max).heuristic == Flat(Parts(cpus, packages, max, k))
    decreases k
  {
    if k > 0 {
      HeuristicStep(cpus, packages, max, k);
      if Small(packages[k - 1], max) {
        PartsRestart(cpus, packages, max, k);
        SocketsAreExtents(cpus, packages, max, k);
      } else {
        HeuristicIsParts(cpus, packages, max, k - 1);
        PartsGrow(cpus, packages, max, k);
      }
    }
  }

  lemma NoPackageEmpty(cpus: seq<Cpu>, packages: seq<Package>)
    requires AllPackagesOk(cpus, packages)
    ensures NoneEmpty(packages)
  {
    forall i | 0 <= i < |packages| ensures packages[i].cores != [] {
      assert PackageAt(cpus, packages, i);
      PackageNonEmpty(cpus, packages[i]);
    }
  }

  /** A slice of the plan belongs to some package. */
  lemma InHeuristic(cpus: seq<Cpu>, packages: seq<Package>, max: nat, k: nat, r: Range)
    requires max > 0 && AllPackagesOk(cpus, packages) && k <= |packages|
    ensures r in TopologyPlans(cpus, packages[..k], max).heuristic
            <==> exists i :: 0 <= i < k && r in Part(cpus, packages, max, k, i)
  {
    NoPackageEmpty(cpus, packages);
    HeuristicIsParts(cpus, packages, max, k);
    var parts := Parts(cpus, packages, max, k);
    InFlat(parts, r);
    assert forall i :: 0 <= i < k ==> parts[i] == Part(cpus, packages, max, k, i);
  }

  // ---------------------------------------------------------------------------------------------
  // The two plans, told by the topology alone
  // ---------------------------------------------------------------------------------------------

  /** Each node of a package is cut evenly. */
  ghost predicate EvenPackage(cpus: seq<Cpu>, nodes: seq<seq<Core>>, max: nat, slices: seq<Range>) {
    exists lists :: |lists| == |nodes| && slices == Flat(lists) && EvenNodes(cpus, nodes, max, lists)
  }

  ghost predicate EvenNodes(cpus: seq<Cpu>, nodes: seq<seq<Core>>, max: nat, lists: seq<seq<Range>>) {
    |lists| == |nodes| && forall i :: 0 <= i < |nodes| ==> CutEvenly(cpus, nodes[i], max, lists[i])
  }

  /** Package `i` has one slice, or even ones if neither it nor a later one is small. */
  ghost predicate EvenPart(cpus: seq<Cpu>, packages: seq<Package>, max: nat, parts: seq<seq<Range>>, i: nat)
    requires i < |parts| == |packages|
  {
    if NoneSmall(packages, max, i, |packages|) then EvenPackage(cpus, packages[i].numaDomains, max, parts[i])
    else parts[i] == [Extent(packages[i].cores)]
  }

  ghost predicate EvenParts(cpus: seq<Cpu>, packages: seq<Package>, max: nat, parts: seq<seq<Range>>) {
    |parts| == |packages| && forall i :: 0 <= i < |packages| ==> EvenPart(cpus, packages, max, parts, i)
  }

  /** One plan has a slice for each package, the other the parts of all packages. */
  ghost predicate PlansOfTopology(cpus: seq<Cpu>, packages: seq<Package>, max: nat, plans: Plans) {
    && plans.isolate == PackageExtents(packages)
    && exists parts :: plans.heuristic == Flat(parts) && EvenParts(cpus, packages, max, parts)
  }

  lemma PackageIsEven(cpus: seq<Cpu>, nodes: seq<seq<Core>>, max: nat)
    requires max > 0 && AllNodesOk(cpus, nodes)
    ensures EvenPackage(cpus, nodes, max, PackageSlices(cpus, nodes, max))
  {
    var lists := NodeLists(cpus, nodes, max);
    forall i | 0 <= i < |nodes| ensures CutEvenly(cpus, nodes[i], max, lists[i]) {
      NodeNonEmpty(cpus, nodes, i);
      NodeCutEvenly(cpus, nodes[i], max);
    }
    assert EvenNodes(cpus, nodes, max, lists);
  }

  lemma NodeNonEmpty(cpus: seq<Cpu>, nodes: seq<seq<Core>>, i: nat)
    requires AllNodesOk(cpus, nodes) && i < |nodes|
    ensures nodes[i] != []
  {
    assert NodeOk(cpus, nodes, i);
    RunsInside(CoreIds(cpus), nodes[i], Extent(nodes[i]).start, Extent(nodes[i]).end);
  }

  lemma PartIsEven(cpus: seq<Cpu>, packages: seq<Package>, max: nat, i: nat)
    requires max > 0 && AllPackagesOk(cpus, packages) && i < |packages|
    ensures EvenPart(cpus, packages, max, Parts(cpus, packages, max, |packages|), i)
  {
    assert PackageAt(cpus, packages, i);
    if NoneSmall(packages, max, i, |packages|) { PackageIsEven(cpus, packages[i].numaDomains, max); }
  }

  /** The plans that slice_plan_init makes from a topology. */
  lemma TopologyPlansMean(cpus: seq<Cpu>, packages: seq<Package>, max: nat)
    requires max > 0 && AllPackagesOk(cpus, packages)
    ensures PlansOfTopology(cpus, packages, max, TopologyPlans(cpus, packages, max))
  {
    NoPackageEmpty(cpus, packages);
    SocketsAreExtents(cpus, packages, max, |packages|);
    HeuristicIsParts(cpus, packages, max, |packages|);
    assert packages[..|packages|] == packages && PackageExtents(packages)[..|packages|] == PackageExtents(packages);
    var parts := Parts(cpus, packages, max, |packages|);
    forall i | 0 <= i < |packages| ensures EvenPart(cpus, packages, max, parts, i) { PartIsEven(cpus, packages, max, i); }
    assert EvenParts(cpus, packages, max, parts);
  }

  /** Whatever the mode, the limit and the topology, what the two plans are. */
  ghost predicate PlansMean(noFork: bool, maxCores: int, cpus: seq<Cpu>, packages: seq<Package>, plans: Plans) {
    if UsesTopology(noFork, maxCores, |cpus|, |packages|) then
      PlansOfTopology(cpus, packages, EffectiveMax(maxCores, true), plans)
    else
      && plans.isolate == plans.heuristic
      && if noFork || maxCores < 0 || EffectiveMax(maxCores, packages != []) == 0 then plans.heuristic == [Range(0, |cpus|)]
         else EvenPlan(plans.heuristic, |cpus|, EffectiveMax(maxCores, packages != []))
  }

  lemma BranchMeans(noFork: bool, maxCores: int, cpus: seq<Cpu>, packages: seq<Package>, plans: Plans)
    requires cpus != [] && (packages != [] ==> PackagesOf(cpus, packages, |cpus|)) && RightBranch(noFork, maxCores, cpus, packages, plans)
    ensures PlansMean(noFork, maxCores, cpus, packages, plans)
  {
    if UsesTopology(noFork, maxCores, |cpus|, |packages|) {
      TopologyPlansMean(cpus, packages, EffectiveMax(maxCores, true));
    }
  }

  // ---------------------------------------------------------------------------------------------
  // When the plan keeps the promise
  // ---------------------------------------------------------------------------------------------

  ghost predicate Fits(cpus: seq<Cpu>, packages: seq<Package>, max: nat, i: nat)
    requires i < |packages|
  {
    Continues(cpus, packages[i].cores, max)
  }

  ghost predicate AllFit(cpus: seq<Cpu>, packages: seq<Package>, max: nat, k: nat)
    requires k <= |packages|
  {
    forall i :: 0 <= i < k ==> Fits(cpus, packages, max, i)
  }

  /** Whatever comes before a small package would do as one slice. */
  ghost predicate FitBeforeSmall(cpus: seq<Cpu>, packages: seq<Package>, max: nat, k: nat)
    requires k <= |packages|
  {
    forall j :: 0 <= j < k && Small(packages[j], max) ==> AllFit(cpus, packages, max, j)
  }

  lemma PartLimitedIff(cpus: seq<Cpu>, packages: seq<Package>, max: nat, k: nat, i: nat)
    requires max > 0 && AllPackagesOk(cpus, packages) && i < k <= |packages|
    ensures AllLimited(cpus, Part(cpus, packages, max, k, i), max)
            <==> NoneSmall(packages, max, i, k) || Fits(cpus, packages, max, i)
  {
    assert PackageAt(cpus, packages, i);
    if NoneSmall(packages, max, i, k) {
      PackageLimited(cpus, packages[i].numaDomains, max);
    } else {
      var r := Extent(packages[i].cores);
      LimitedIff(cpus, r, packages[i].cores, max);
      assert r in Part(cpus, packages, max, k, i);
    }
  }

  /** Every slice of the detailed plan has at most `max` cores apart from the rest of one module, if
      and only if the same holds of every whole package that comes before a small one. */
  lemma HeuristicLimitedIff(cpus: seq<Cpu>, packages: seq<Package>, max: nat, k: nat)
    requires max > 0 && AllPackagesOk(cpus, packages) && k <= |packages|
    ensures AllLimited(cpus, TopologyPlans(cpus, packages[..k], max).heuristic, max)
            <==> FitBeforeSmall(cpus, packages, max, k)
  {
    var plan := TopologyPlans(cpus, packages[..k], max).heuristic;
    FitIff(cpus, packages, max, k);
    if AllLimited(cpus, plan, max) {
      forall i | 0 <= i < k ensures NoneSmall(packages, max, i, k) || Fits(cpus, packages, max, i) {
        forall r | r in Part(cpus, packages, max, k, i) ensures Limited(cpus, r, max) { InHeuristic(cpus, packages, max, k, r); }
        PartLimitedIff(cpus, packages, max, k, i);
      }
    }
    if FitBeforeSmall(cpus, packages, max, k) {
      forall r | r in plan ensures Limited(cpus, r, max) {
        InHeuristic(cpus, packages, max, k, r);
        var i :| 0 <= i < k && r in Part(cpus, packages, max, k, i);
        PartLimitedIff(cpus, packages, max, k, i);
      }
    }
  }

  lemma FitIff(cpus: seq<Cpu>, packages: seq<Package>, max: nat, k: nat)
    requires k <= |packages|
    ensures FitBeforeSmall(cpus, packages, max, k)
            <==> forall i :: 0 <= i < k ==> NoneSmall(packages, max, i, k) || Fits(cpus, packages, max, i)
  {
    if FitBeforeSmall(cpus, packages, max, k) {
      forall i | 0 <= i < k ensures NoneSmall(packages, max, i, k) || Fits(cpus, packages, max, i) {
        if j :| i < j < k && Small(packages[j], max) { assert AllFit(cpus, packages, max, j); }
      }
    }
    if forall i :: 0 <= i < k ==> NoneSmall(packages, max, i, k) || Fits(cpus, packages, max, i) {
      forall j | 0 <= j < k && Small(packages[j], max) ensures AllFit(cpus, packages, max, j) {
        forall i | 0 <= i < j ensures Fits(cpus, packages, max, i) { assert !NoneSmall(packages, max, i, k); }
      }
    }
  }

  /** Package `i` gives no slice of more than `max` cores: it is small, or no later package is and a
      module ends in time wherever a slice of it should end. */
  ghost predicate HasRoom(cpus: seq<Cpu>, packages: seq<Package>, max: nat, k: nat, i: nat)
    requires max > 0 && i < k <= |packages|
  {
    Small(packages[i], max) || (NoneSmall(packages, max, i, k) && AllHaveRoom(cpus, packages[i].numaDomains, max))
  }

  lemma PartAtMostIff(cpus: seq<Cpu>, packages: seq<Package>, max: nat, k: nat, i: nat)
    requires max > 0 && AllPackagesOk(cpus, packages) && i < k <= |packages|
    ensures AllAtMost(cpus, Part(cpus, packages, max, k, i), max) <==> HasRoom(cpus, packages, max, k, i)
  {
    assert PackageAt(cpus, packages, i);
    if NoneSmall(packages, max, i, k) {
      PackageAtMostIff(cpus, packages[i].numaDomains, max);
    } else {
      var r := Extent(packages[i].cores);
      AtMostIff(cpus, r, packages[i].cores, max);
      assert r in Part(cpus, packages, max, k, i);
    }
  }

  /** Every slice of the detailed plan has at most `max` cores, without exception, if and only if
      every package gives only such slices. */
  lemma HeuristicAtMostIff(cpus: seq<Cpu>, packages: seq<Package>, max: nat, k: nat)
    requires max > 0 && AllPackagesOk(cpus, packages) && k <= |packages|
    ensures AllAtMost(cpus, TopologyPlans(cpus, packages[..k], max).heuristic, max)
            <==> forall i :: 0 <= i < k ==> HasRoom(cpus, packages, max, k, i)
  {
    var plan := TopologyPlans(cpus, packages[..k], max).heuristic;
    if AllAtMost(cpus, plan, max) {
      forall i | 0 <= i < k ensures HasRoom(cpus, packages, max, k, i) {
        forall r | r in Part(cpus, packages, max, k, i) ensures AtMostCores(cpus, r, max) { InHeuristic(cpus, packages, max, k, r); }
        PartAtMostIff(cpus, packages, max, k, i);
      }
    }
    if forall i :: 0 <= i < k ==> HasRoom(cpus, packages, max, k, i) {
      forall r | r in plan ensures AtMostCores(cpus, r, max) {
        InHeuristic(cpus, packages, max, k, r);
        var i :| 0 <= i < k && r in Part(cpus, packages, max, k, i);
        PartAtMostIff(cpus, packages, max, k, i);
      }
    }
  }

  // ---------------------------------------------------------------------------------------------
  // When the plan is the ideal one
  // ---------------------------------------------------------------------------------------------

  /** The slices one package gets for itself. */
  function Pieces(cpus: seq<Cpu>, p: Package, max: nat): seq<Range>
    requires max > 0
  {
    if Small(p, max) then [Extent(p.cores)] else PackageSlices(cpus, p.numaDomains, max)
  }

  function PieceLists(cpus: seq<Cpu>, packages: seq<Package>, max: nat): seq<seq<Range>>
    requires max > 0
  {
    seq(|packages|, i requires 0 <= i < |packages| => Pieces(cpus, packages[i], max))
  }

  /** Every package with its own slices. */
  function Ideal(cpus: seq<Cpu>, packages: seq<Package>, max: nat): seq<Range>
    requires max > 0
  {
    Flat(PieceLists(cpus, packages, max))
  }

  /** Package `i` is too large and can be cut: it has several NUMA nodes, or a module boundary after
      the first slice's worth of cores. */
  ghost predicate Cut(cpus: seq<Cpu>, packages: seq<Package>, max: nat, i: nat)
    requires max > 0 && i < |packages|
  {
    !Small(packages[i], max) && (|packages[i].numaDomains| > 1 || HasBoundary(cpus, packages[i].cores, SliceSize(|packages[i].cores|, max)))
  }

  ghost predicate HasBoundary(cpus: seq<Cpu>, cores: seq<Core>, size: nat) {
    exists j :: size <= j < |cores| && 0 < j && !SameModule(cpus, cores, j)
  }

  lemma NodeSlicesCount(cpus: seq<Cpu>, cores: seq<Core>, max: nat)
    requires max > 0 && |cores| > max
    ensures |NodeSlices(cpus, cores, max)| > 1 <==> HasBoundary(cpus, cores, SliceSize(|cores|, max))
  {
    var size := SliceSize(|cores|, max);
    SliceSizeBounds(|cores|, max);
    SlicesCount(cores, 0, Cuts(cpus, cores, 0, size));
    SliceEndStays(cpus, cores, size);
    var e := SliceEnd(cpus, cores, size);
    assert Cuts(cpus, cores, 0, size) == [e] + Cuts(cpus, cores, e, size);
    CutsEmptyIff(cpus, cores, e, size);
  }

  lemma CutsEmptyIff(cpus: seq<Cpu>, cores: seq<Core>, begin: nat, size: nat)
    requires begin <= |cores| && size > 0
    ensures Cuts(cpus, cores, begin, size) == [] <==> begin == |cores|
  {
  }

  lemma PackageSlicesCount(cpus: seq<Cpu>, nodes: seq<seq<Core>>, max: nat)
    requires max > 0 && AllNodesOk(cpus, nodes)
    ensures |PackageSlices(cpus, nodes, max)| >= |nodes|
  {
    var lists := NodeLists(cpus, nodes, max);
    forall i | 0 <= i < |lists| ensures lists[i] != [] {
      assert NodeOk(cpus, nodes, i);
      NodeTiles(cpus, nodes[i], max);
    }
    FlatNoShorter(lists);
  }

  /** A package with one NUMA node has the cores of that node. */
  lemma OneNode(cpus: seq<Cpu>, p: Package)
    requires PackageOk(cpus, p) && |p.numaDomains| == 1
    ensures p.numaDomains[0] == p.cores
  {
    var rs := Extents(p.numaDomains);
    assert rs[0] == Extent(p.numaDomains[0]) && NodeOk(cpus, p.numaDomains, 0);
    RunsUnique(CoreIds(cpus), p.numaDomains[0], p.cores, Extent(p.cores).start, Extent(p.cores).end);
  }

  lemma CutIff(cpus: seq<Cpu>, packages: seq<Package>, max: nat, k: nat)
    requires max > 0 && AllPackagesOk(cpus, packages) && k < |packages|
    ensures Cut(cpus, packages, max, k) <==> |Pieces(cpus, packages[k], max)| > 1
  {
    if !Small(packages[k], max) {
      assert PackageAt(cpus, packages, k);
      LargeCutIff(cpus, packages[k], max);
    }
  }

  lemma LargeCutIff(cpus: seq<Cpu>, p: Package, max: nat)
    requires max > 0 && PackageOk(cpus, p) && !Small(p, max)
    ensures |PackageSlices(cpus, p.numaDomains, max)| > 1
            <==> |p.numaDomains| > 1 || HasBoundary(cpus, p.cores, SliceSize(|p.cores|, max))
  {
    var nodes := p.numaDomains;
    if |nodes| == 1 {
      OneNode(cpus, p);
      NodeSlicesCount(cpus, p.cores, max);
      PackageSlicesStep(cpus, nodes, max, 1);
      assert nodes[..0] == [] && nodes[..1] == nodes;
    } else {
      PackageSlicesCount(cpus, nodes, max);
      NodesNonEmpty(cpus, p);
    }
  }

  lemma NodesNonEmpty(cpus: seq<Cpu>, p: Package)
    requires PackageOk(cpus, p)
    ensures p.numaDomains != []
  {
    PackageNonEmpty(cpus, p);
    assert |Extents(p.numaDomains)| == |p.numaDomains|;
  }

  lemma OnePiece(cpus: seq<Cpu>, packages: seq<Package>, max: nat, k: nat)
    requires max > 0 && AllPackagesOk(cpus, packages) && k < |packages|
    ensures |Pieces(cpus, packages[k], max)| >= 1
    ensures |Pieces(cpus, packages[k], max)| == 1 <==> !Cut(cpus, packages, max, k)
    ensures |Pieces(cpus, packages[k], max)| == 1 ==> Pieces(cpus, packages[k], max) == [Extent(packages[k].cores)]
  {
    CutIff(cpus, packages, max, k);
    assert PackageAt(cpus, packages, k);
    PiecesTile(cpus, packages[k], max);
    OnlyTile(Pieces(cpus, packages[k], max), Extent(packages[k].cores));
  }

  lemma OnlyTile(rs: seq<Range>, r: Range)
    requires Tiles(rs, r.start, r.end) && r.count > 0
    ensures rs != [] && (|rs| == 1 ==> rs == [r])
  {
  }

  lemma PiecesTile(cpus: seq<Cpu>, p: Package, max: nat)
    requires max > 0 && PackageOk(cpus, p)
    ensures Tiles(Pieces(cpus, p, max), Extent(p.cores).start, Extent(p.cores).end)
    ensures Extent(p.cores).count > 0
  {
    PackageNonEmpty(cpus, p);
    PackageSlicesTile(cpus, p, max);
  }

  ghost predicate NoneCut(cpus: seq<Cpu>, packages: seq<Package>, max: nat, k: nat)
    requires max > 0 && k <= |packages|
  {
    forall i :: 0 <= i < k ==> !Cut(cpus, packages, max, i)
  }

  /** No package that was cut comes before a small one. */
  ghost predicate CutsLast(cpus: seq<Cpu>, packages: seq<Package>, max: nat, k: nat)
    requires max > 0 && k <= |packages|
  {
    forall j :: 0 <= j < k && Small(packages[j], max) ==> NoneCut(cpus, packages, max, j)
  }

  /** Where the packages begin, and where the last one ends. */
  function Begins(packages: seq<Package>, k: nat): seq<nat>
    requires k <= |packages|
  {
    seq(k + 1, i requires 0 <= i <= k => PackageBegin(packages, i))
  }

  lemma PieceTiles(cpus: seq<Cpu>, packages: seq<Package>, max: nat, i: nat)
    requires max > 0 && AllPackagesOk(cpus, packages) && PackagesInLine(packages) && i < |packages|
    ensures Tiles(Pieces(cpus, packages[i], max), PackageBegin(packages, i), PackageBegin(packages, i + 1))
    ensures Tiles([Extent(packages[i].cores)], PackageBegin(packages, i), PackageBegin(packages, i + 1))
  {
    assert PackageAt(cpus, packages, i) && PackageFollows(packages, i);
    PiecesTile(cpus, packages[i], max);
  }

  lemma PartTiles(cpus: seq<Cpu>, packages: seq<Package>, max: nat, k: nat, i: nat)
    requires max > 0 && AllPackagesOk(cpus, packages) && PackagesInLine(packages) && i < k <= |packages|
    ensures Tiles(Part(cpus, packages, max, k, i), PackageBegin(packages, i), PackageBegin(packages, i + 1))
  {
    PieceTiles(cpus, packages, max, i);
    assert Part(cpus, packages, max, k, i) == Pieces(cpus, packages[i], max) || Part(cpus, packages, max, k, i) == [Extent(packages[i].cores)];
  }

  lemma PiecesInLine(cpus: seq<Cpu>, packages: seq<Package>, max: nat, k: nat)
    requires max > 0 && AllPackagesOk(cpus, packages) && PackagesInLine(packages) && k <= |packages|
    ensures TilesParts(PieceLists(cpus, packages[..k], max), Begins(packages, k))
  {
    var lists, bounds := PieceLists(cpus, packages[..k], max), Begins(packages, k);
    forall i | 0 <= i < |lists| ensures TilesPart(lists, bounds, i) {
      PieceTiles(cpus, packages, max, i);
      TilesPartIs(lists, bounds, i, Pieces(cpus, packages[i], max), PackageBegin(packages, i), PackageBegin(packages, i + 1));
    }
  }

  lemma PartsInLine(cpus: seq<Cpu>, packages: seq<Package>, max: nat, k: nat)
    requires max > 0 && AllPackagesOk(cpus, packages) && PackagesInLine(packages) && k <= |packages|
    ensures TilesParts(Parts(cpus, packages, max, k), Begins(packages, k))
  {
    var lists, bounds := Parts(cpus, packages, max, k), Begins(packages, k);
    forall i | 0 <= i < |lists| ensures TilesPart(lists, bounds, i) {
      PartTiles(cpus, packages, max, k, i);
      TilesPartIs(lists, bounds, i, Part(cpus, packages, max, k, i), PackageBegin(packages, i), PackageBegin(packages, i + 1));
    }
  }

  lemma PartIsPieceIff(cpus: seq<Cpu>, packages: seq<Package>, max: nat, k: nat, i: nat)
    requires max > 0 && AllPackagesOk(cpus, packages) && i < k <= |packages|
    ensures Part(cpus, packages, max, k, i) == Pieces(cpus, packages[i], max)
            <==> NoneSmall(packages, max, i, k) || !Cut(cpus, packages, max, i)
  {
    OnePiece(cpus, packages, max, i);
  }

  /** The heuristic plan gives every package its own slices exactly when no small package follows
      one that was cut: `split = isolate_socket` drops the slices made before it. */
  lemma HeuristicIsIdealIff(cpus: seq<Cpu>, packages: seq<Package>, max: nat, k: nat)
    requires max > 0 && AllPackagesOk(cpus, packages) && PackagesInLine(packages) && k <= |packages|
    ensures TopologyPlans(cpus, packages[..k], max).heuristic == Ideal(cpus, packages[..k], max)
            <==> CutsLast(cpus, packages, max, k)
  {
    var parts, pieces := Parts(cpus, packages, max, k), PieceLists(cpus, packages[..k], max);
    NoPackageEmpty(cpus, packages);
    HeuristicIsParts(cpus, packages, max, k);
    PartsInLine(cpus, packages, max, k);
    PiecesInLine(cpus, packages, max, k);
    if Flat(parts) == Flat(pieces) { FlatInjective(parts, pieces, Begins(packages, k)); }
    PartsArePiecesIff(cpus, packages, max, k);
    CutsLastIff(cpus, packages, max, k);
  }

  lemma PartsArePiecesIff(cpus: seq<Cpu>, packages: seq<Package>, max: nat, k: nat)
    requires max > 0 && AllPackagesOk(cpus, packages) && k <= |packages|
    ensures Parts(cpus, packages, max, k) == PieceLists(cpus, packages[..k], max)
            <==> forall i :: 0 <= i < k ==> NoneSmall(packages, max, i, k) || !Cut(cpus, packages, max, i)
  {
    var parts, pieces := Parts(cpus, packages, max, k), PieceLists(cpus, packages[..k], max);
    forall i | 0 <= i < k ensures parts[i] == pieces[i] <==> NoneSmall(packages, max, i, k) || !Cut(cpus, packages, max, i) {
      PartIsPieceIff(cpus, packages, max, k, i);
      assert parts[i] == Part(cpus, packages, max, k, i) && pieces[i] == Pieces(cpus, packages[i], max);
    }
  }

  lemma CutsLastIff(cpus: seq<Cpu>, packages: seq<Package>, max: nat, k: nat)
    requires max > 0 && k <= |packages|
    ensures CutsLast(cpus, packages, max, k)
            <==> forall i :: 0 <= i < k ==> NoneSmall(packages, max, i, k) || !Cut(cpus, packages, max, i)
  {
    if CutsLast(cpus, packages, max, k) {
      forall i | 0 <= i < k ensures NoneSmall(packages, max, i, k) || !Cut(cpus, packages, max, i) {
        if j :| i < j < k && Small(packages[j], max) { assert NoneCut(cpus, packages, max, j); }
      }
    }
    if forall i :: 0 <= i < k ==> NoneSmall(packages, max, i, k) || !Cut(cpus, packages, max, i) {
      forall j | 0 <= j < k && Small(packages[j], max) ensures NoneCut(cpus, packages, max, j) {
        forall i | 0 <= i < j ensures !Cut(cpus, packages, max, i) { assert !NoneSmall(packages, max, i, k); }
      }
    }
  }

  // ---------------------------------------------------------------------------------------------
  // "At most `max` cores" is false for two reasons
  // ---------------------------------------------------------------------------------------------

  lemma TooManyCores(cpus: seq<Cpu>, plan: seq<Range>, r: Range, cores: seq<Core>, max: nat)
    requires r in plan && CoresOf(cpus, cores, r.start, r.end) && |cores| > max
    ensures !AllAtMost(cpus, plan, max)
  {
    AtMostIff(cpus, r, cores, max);
  }

  const ONE_MODULE := [Cpu(0, 0, 0, 0, 0, 0, 0), Cpu(1, 0, 1, 0, 0, 0, 0)]
  const ONE_PACKAGE := [Package(TWO_CORES, [TWO_CORES])]

  lemma OneModuleIds()
    ensures CoreIds(ONE_MODULE) == [0, 1] && NumaIds(ONE_MODULE) == [0, 0] && PackageIds(ONE_MODULE) == [0, 0]
  {
  }

  lemma OneModuleCores()
    ensures CoresOf(ONE_MODULE, TWO_CORES, 0, 2) && GroupOk(ONE_MODULE, TWO_CORES)
  {
    OneModuleIds();
  }

  lemma OneModuleOk()
    ensures PackagesOf(ONE_MODULE, ONE_PACKAGE, 2)
  {
    OneModuleIds();
    OneModuleCores();
    assert Extents([TWO_CORES]) == [Range(0, 2)] && PackageExtents(ONE_PACKAGE) == [Range(0, 2)];
  }

  lemma OneModuleSlice()
    ensures PackageSlices(ONE_MODULE, [TWO_CORES], 1) == [Range(0, 2)]
  {
    assert SliceSize(2, 1) == 1;
    assert ModuleOf(ONE_MODULE, TWO_CORES[0]) == 0 && ModuleOf(ONE_MODULE, TWO_CORES[1]) == 0;
    assert SliceEnd(ONE_MODULE, TWO_CORES, 2) == 2 && SliceEnd(ONE_MODULE, TWO_CORES, 1) == 2;
    SlicesStep(ONE_MODULE, TWO_CORES, 0, 1);
    SlicesLast(ONE_MODULE, TWO_CORES, 2, 1);
    assert TWO_CORES[0..2] == TWO_CORES;
    assert NodeSlices(ONE_MODULE, TWO_CORES, 1) == [Range(0, 2)];
    PackageSlicesStep(ONE_MODULE, [TWO_CORES], 1, 1);
    assert [TWO_CORES][..1] == [TWO_CORES] && [TWO_CORES][..0] == [];
  }

  /** First reason: a module is never cut. Two cores of one module, with one core per slice, make one
      slice, and the promise is kept. */
  lemma ModuleMakesLargerSlice()
    ensures PackagesOf(ONE_MODULE, ONE_PACKAGE, 2)
    ensures var plan := TopologyPlans(ONE_MODULE, ONE_PACKAGE, 1).heuristic;
            plan == [Range(0, 2)] && !AllAtMost(ONE_MODULE, plan, 1) && AllLimited(ONE_MODULE, plan, 1)
  {
    OneModuleOk();
    OneModuleCores();
    OneModuleSlice();
    PlansStep(ONE_MODULE, ONE_PACKAGE, 1, 1);
    assert ONE_PACKAGE[..1] == ONE_PACKAGE && ONE_PACKAGE[..0] == [];
    TooManyCores(ONE_MODULE, [Range(0, 2)], Range(0, 2), TWO_CORES, 1);
    HeuristicLimitedIff(ONE_MODULE, ONE_PACKAGE, 1, 1);
  }

  const THREE_CPUS := [Cpu(0, 0, 0, 0, 0, 0, 0), Cpu(1, 0, 1, 1, 0, 0, 0), Cpu(2, 0, 0, 0, 0, 0, 1)]
  const TWO_CORES := [Range(0, 1), Range(1, 1)]
  const LARGE_THEN_SMALL := [Package(TWO_CORES, [TWO_CORES]), Package([Range(2, 1)], [[Range(2, 1)]])]

  lemma ThreeIds()
    ensures CoreIds(THREE_CPUS) == [0, 1, 0] && NumaIds(THREE_CPUS) == [0, 0, 0] && PackageIds(THREE_CPUS) == [0, 0, 1]
  {
  }

  lemma LargeOk()
    ensures PackageOk(THREE_CPUS, LARGE_THEN_SMALL[0])
  {
    ThreeIds();
    assert Extents([TWO_CORES]) == [Range(0, 2)];
  }

  lemma SmallOk()
    ensures PackageOk(THREE_CPUS, LARGE_THEN_SMALL[1])
  {
    ThreeIds();
    assert Extents([[Range(2, 1)]]) == [Range(2, 1)];
  }

  lemma LargeThenSmallRuns()
    ensures Runs(PackageIds(THREE_CPUS), PackageExtents(LARGE_THEN_SMALL), 0, 3)
  {
    ThreeIds();
    assert PackageExtents(LARGE_THEN_SMALL) == [Range(0, 2), Range(2, 1)];
  }

  lemma LargeThenSmall()
    ensures PackagesOf(THREE_CPUS, LARGE_THEN_SMALL, 3)
  {
    LargeThenSmallRuns();
    forall i | 0 <= i < |LARGE_THEN_SMALL| ensures PackageAt(THREE_CPUS, LARGE_THEN_SMALL, i) {
      if i == 0 { LargeOk(); } else { SmallOk(); }
    }
  }

  lemma TwoCoresEnd()
    ensures SliceEnd(THREE_CPUS, TWO_CORES, 1) == 1
  {
    assert ModuleOf(THREE_CPUS, TWO_CORES[0]) == 0 && ModuleOf(THREE_CPUS, TWO_CORES[1]) == 1;
  }

  lemma TwoCoresSlices()
    ensures SlicesFrom(THREE_CPUS, TWO_CORES, 0, 1) == TWO_CORES
  {
    TwoCoresEnd();
    SlicesStep(THREE_CPUS, TWO_CORES, 0, 1);
    SlicesLast(THREE_CPUS, TWO_CORES, 1, 1);
    assert TWO_CORES[0..1] == [Range(0, 1)] && TWO_CORES[1..] == [Range(1, 1)];
  }

  lemma TwoCoresCut()
    ensures PackageSlices(THREE_CPUS, [TWO_CORES], 1) == TWO_CORES
  {
    assert SliceSize(2, 1) == 1;
    TwoCoresSlices();
    assert NodeSlices(THREE_CPUS, TWO_CORES, 1) == TWO_CORES;
    assert [TWO_CORES][..0] == [];
    PackageSlicesStep(THREE_CPUS, [TWO_CORES], 1, 1);
    assert [TWO_CORES][..1] == [TWO_CORES];
  }

  const AFTER_LARGE := Plans([Range(0, 2)], TWO_CORES)

  lemma LargeIsCut()
    ensures Extended(THREE_CPUS, Plans([], []), LARGE_THEN_SMALL[0], 1) == AFTER_LARGE
  {
    TwoCoresCut();
    assert Extent(TWO_CORES) == Range(0, 2);
  }

  lemma SmallRestarts()
    ensures Extended(THREE_CPUS, AFTER_LARGE, LARGE_THEN_SMALL[1], 1).heuristic == [Range(0, 2), Range(2, 1)]
  {
    assert Extent([Range(2, 1)]) == Range(2, 1);
  }

  lemma LargeCores()
    ensures CoresOf(THREE_CPUS, TWO_CORES, 0, 2)
  {
    ThreeIds();
  }

  lemma LargeDoesNotFit()
    ensures !FitBeforeSmall(THREE_CPUS, LARGE_THEN_SMALL, 1, 2)
  {
    assert ModuleOf(THREE_CPUS, TWO_CORES[0]) == 0 && ModuleOf(THREE_CPUS, TWO_CORES[1]) == 1;
    assert !SameModule(THREE_CPUS, LARGE_THEN_SMALL[0].cores, 1);
    assert !Fits(THREE_CPUS, LARGE_THEN_SMALL, 1, 0) && Small(LARGE_THEN_SMALL[1], 1);
  }

  /** Second reason: two sockets of two cores and of one core, with one core per slice. The second
      socket undoes the cut of the first, a slice of two cores of different modules is left, and the
      promise is broken. */
  lemma SmallSocketUndoesCut()
    ensures PackagesOf(THREE_CPUS, LARGE_THEN_SMALL, 3)
    ensures TopologyPlans(THREE_CPUS, LARGE_THEN_SMALL[..1], 1).heuristic == [Range(0, 1), Range(1, 1)]
    ensures var plan := TopologyPlans(THREE_CPUS, LARGE_THEN_SMALL, 1).heuristic;
            plan == [Range(0, 2), Range(2, 1)] && !AllAtMost(THREE_CPUS, plan, 1) && !AllLimited(THREE_CPUS, plan, 1)
  {
    LargeThenSmall();
    LargeIsCut();
    SmallRestarts();
    PlansStep(THREE_CPUS, LARGE_THEN_SMALL, 1, 1);
    PlansStep(THREE_CPUS, LARGE_THEN_SMALL, 1, 2);
    assert LARGE_THEN_SMALL[..2] == LARGE_THEN_SMALL;
    LargeCores();
    TooManyCores(THREE_CPUS, [Range(0, 2), Range(2, 1)], Range(0, 2), TWO_CORES, 1);
    LargeDoesNotFit();
    HeuristicLimitedIff(THREE_CPUS, LARGE_THEN_SMALL, 1, 2);
  }
}
