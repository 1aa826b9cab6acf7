/** The shared-memory file with one record per slice and one per CPU, and the pointers through which
    the parent and the child processes reach them. */
module SharedRecords {
  import opened Ranges
  import opened CpuOrder
  import opened Topology
  import opened SlicePlans
  import opened SliceLimits

  const PAGE := 4096
  const RECORD := 64  // bytes of a main-thread record, and of a test-thread record

  function RoundUpToPage(n: nat): nat {
    (n + PAGE - 1) / PAGE * PAGE
  }

  lemma RoundUpBounds(n: nat)
    ensures n <= RoundUpToPage(n) < n + PAGE && RoundUpToPage(n) % PAGE == 0
  {
  }

  /** Bytes after the offset: the main-thread records, on whole pages, then the test-thread ones. */
  function DataSize(mains: nat, cpus: nat): nat {
    RoundUpToPage(RoundUpToPage(RECORD * mains) + RECORD * cpus)
  }

  datatype Schedule = Sequential | FullSystem | IsolateSocket | Default

  /** The contents of the file. */
  class SharedMemory {
    var threadDataOffset: nat
    var mainThreadCount: nat
    var totalCpuCount: nat
    var size: nat
    var cpuRanges: seq<Range>  // of the main-thread records

    ghost predicate Valid()
      reads this
    {
      && |cpuRanges| == mainThreadCount
      && size == threadDataOffset + DataSize(mainThreadCount, totalCpuCount)
    }

    /** commit_shmem: the file grows to hold a record for each slice of the most detailed plan. */
    constructor Commit(offset: nat, heuristic: seq<Range>, cpus: nat)
      ensures Valid() && threadDataOffset == offset
      ensures mainThreadCount == |heuristic| && totalCpuCount == cpus
    {
      threadDataOffset := offset;
      mainThreadCount := |heuristic|;
      totalCpuCount := cpus;
      var bytes := RoundUpToPage(RECORD * |heuristic|);
      bytes := bytes + RECORD * cpus;
      bytes := RoundUpToPage(bytes);
      size := offset + bytes;
      cpuRanges := seq(|heuristic|, i => Range(0, 0));
    }

    /** One main-thread record after the other gets its range. */
    method AssignRanges(plan: seq<Range>)
      requires |plan| <= |cpuRanges|
      modifies `cpuRanges
      ensures cpuRanges == plan + old(cpuRanges)[|plan|..]
    {
      for i := 0 to |plan|
        invariant cpuRanges == plan[..i] + old(cpuRanges)[i..]
      {
        assert plan[..i + 1] == plan[..i] + [plan[i]];
        cpuRanges := cpuRanges[i := plan[i]];
      }
      assert plan[..|plan|] == plan;
    }
  }

  /** One process: where its record pointers point, and the CPUs it sees. */
  class Application {
    const shmem: SharedMemory
    const plans: Plans
    var mainThreadData: nat  // byte offset of the record it calls main thread 0
    var testThreadData: nat
    var cpuInfo: nat         // index of the CPU it calls CPU 0
    var threadCount: nat

    /** The pointers of a process that has just attached. */
    ghost predicate Attached()
      reads this, shmem
    {
      && shmem.Valid()
      && mainThreadData == shmem.threadDataOffset
      && testThreadData == shmem.threadDataOffset + RoundUpToPage(RECORD * shmem.mainThreadCount)
      && cpuInfo == 0 && threadCount == shmem.totalCpuCount
    }

    /** The plans made for these CPUs; the more detailed one sized the file. */
    ghost predicate Valid()
      reads this, shmem
    {
      && Attached()
      && PlansOk(plans, shmem.totalCpuCount)
      && |plans.heuristic| == shmem.mainThreadCount > 0
    }

    /** attach_shmem_internal, by the parent at start and by a child that was executed anew. */
    constructor Attach(shmem: SharedMemory, plans: Plans)
      requires shmem.Valid()
      ensures this.shmem == shmem && this.plans == plans && Attached()
    {
      this.shmem := shmem;
      this.plans := plans;
      mainThreadData := shmem.threadDataOffset;
      testThreadData := shmem.threadDataOffset + RoundUpToPage(RECORD * shmem.mainThreadCount);
      cpuInfo := 0;
      threadCount := shmem.totalCpuCount;
    }

    /** A forked child has the parent's pointers. */
    constructor Fork(parent: Application)
      ensures shmem == parent.shmem && plans == parent.plans
      ensures mainThreadData == parent.mainThreadData && testThreadData == parent.testThreadData
      ensures cpuInfo == parent.cpuInfo && threadCount == parent.threadCount
    {
      shmem := parent.shmem;
      plans := parent.plans;
      mainThreadData := parent.mainThreadData;
      testThreadData := parent.testThreadData;
      cpuInfo := parent.cpuInfo;
      threadCount := parent.threadCount;
    }

    /** Byte offset of a record, by thread number: -1 - i is the main thread of slice i. */
    function ThreadData(thread: int): nat
      requires thread < threadCount
      reads this
    {
      if thread < 0 then mainThreadData + RECORD * (-1 - thread) else testThreadData + RECORD * thread
    }

    method SelectMainThread(slice: nat)
      requires shmem.Valid() && mainThreadData == shmem.threadDataOffset && slice < shmem.mainThreadCount
      modifies this
      ensures mainThreadData == old(mainThreadData) + RECORD * slice
      ensures testThreadData == old(testThreadData) + RECORD * shmem.cpuRanges[slice].start
      ensures cpuInfo == old(cpuInfo) && threadCount == old(threadCount)
    {
      mainThreadData := mainThreadData + RECORD * slice;
      testThreadData := testThreadData + RECORD * shmem.cpuRanges[slice].start;
    }

    /** The source's assertion is the precondition. */
    method RestrictTopology(range: Range)
      requires range.end <= threadCount
      modifies this
      ensures cpuInfo == range.start && threadCount == range.count
      ensures mainThreadData == old(mainThreadData) && testThreadData == old(testThreadData)
    {
      cpuInfo := range.start;
      threadCount := range.count;
    }

    /** slices_for_test: the ranges of the plan the test asks for go into the main-thread records. */
    method SlicesForTest(schedule: Schedule) returns (count: nat)
      requires Valid()
      modifies shmem`cpuRanges
      ensures Valid() && 0 < count <= shmem.mainThreadCount
      ensures Tiles(shmem.cpuRanges[..count], 0, shmem.totalCpuCount)
      ensures Gets(schedule, plans, shmem.totalCpuCount, shmem.cpuRanges[..count])
      ensures shmem.cpuRanges[count..] == old(shmem.cpuRanges)[count..]
    {
      HeuristicIsLongest(plans, shmem.totalCpuCount);
      if schedule.Sequential? || schedule.FullSystem? {
        shmem.cpuRanges := shmem.cpuRanges[0 := Range(0, shmem.totalCpuCount)];
        assert shmem.cpuRanges[..1] == [Range(0, shmem.totalCpuCount)];
        return 1;
      }
      var plan := if schedule.IsolateSocket? then plans.isolate else plans.heuristic;
      assert Gets(schedule, plans, shmem.totalCpuCount, plan);
      shmem.AssignRanges(plan);
      assert shmem.cpuRanges[..|plan|] == plan;
      return |plan|;
    }

    /** What child `slice` of a test does first. */
    method StartChild(slice: nat, ghost count: nat, exec: bool) returns (child: Application)
      requires Valid() && slice < count <= shmem.mainThreadCount
      requires Tiles(shmem.cpuRanges[..count], 0, shmem.totalCpuCount)
      ensures fresh(child) && child.shmem == shmem && child.ChildOf(this, slice)
    {
      if exec {
        child := new Application.Attach(shmem, Plans([], []));
      } else {
        child := new Application.Fork(this);
      }
      child.SelectMainThread(slice);
      TilesInside(shmem.cpuRanges[..count], 0, shmem.totalCpuCount, slice);
      assert shmem.cpuRanges[..count][slice] == shmem.cpuRanges[slice];
      child.RestrictTopology(shmem.cpuRanges[slice]);
    }

    /** This process is the child of `parent` for one slice. */
    ghost predicate ChildOf(parent: Application, slice: nat)
      reads this, parent, parent.shmem
    {
      && parent.Attached() && slice < parent.shmem.mainThreadCount
      && var range := parent.shmem.cpuRanges[slice];
      && mainThreadData == parent.mainThreadData + RECORD * slice
      && testThreadData == parent.testThreadData + RECORD * range.start
      && cpuInfo == range.start && threadCount == range.count
    }
  }

  /** A test gets the ranges that its schedule asks for. */
  ghost predicate Gets(schedule: Schedule, plans: Plans, cpus: nat, ranges: seq<Range>) {
    match schedule
    case Sequential | FullSystem => ranges == [Range(0, cpus)]
    case IsolateSocket => ranges == plans.isolate
    case Default => ranges == plans.heuristic
  }

  /** No plan has more slices than there are main-thread records. */
  lemma HeuristicIsLongest(plans: Plans, cpus: nat)
    requires PlansOk(plans, cpus) && |plans.heuristic| > 0
    ensures forall schedule, ranges :: Gets(schedule, plans, cpus, ranges) ==> 0 < |ranges| <= |plans.heuristic| && Tiles(ranges, 0, cpus)
  {
    RefinementNoShorter(plans.heuristic, plans.isolate, 0, cpus);
    TilesInside(plans.heuristic, 0, cpus, 0);
  }

  /** A range of CPUs is those of one package id and no others. */
  ghost predicate IsSocket(cpus: seq<Cpu>, r: Range) {
    r.count > 0 && r.end <= |cpus| && forall x :: 0 <= x < |cpus| ==> (r.Holds(x) <==> cpus[x].packageId == cpus[r.start].packageId)
  }

  /** A test that wants its sockets isolated has one child for each, on all its CPUs. */
  lemma SocketPerChild(cpus: seq<Cpu>, packages: seq<Package>, max: nat, plans: Plans, ranges: seq<Range>)
    requires PackagesOf(cpus, packages, |cpus|) && PlansOfTopology(cpus, packages, max, plans)
    requires Gets(IsolateSocket, plans, |cpus|, ranges)
    ensures |ranges| == |packages| && forall i :: 0 <= i < |ranges| ==> ranges[i] == Extent(packages[i].cores)
    ensures Ordered(cpus) ==> forall i :: 0 <= i < |ranges| ==> IsSocket(cpus, ranges[i])
  {
    if Ordered(cpus) {
      forall i | 0 <= i < |ranges| ensures IsSocket(cpus, ranges[i]) { PackageIsSocket(cpus, packages, i); }
    }
  }

  lemma PackageIsSocket(cpus: seq<Cpu>, packages: seq<Package>, i: nat)
    requires PackagesOf(cpus, packages, |cpus|) && Ordered(cpus) && i < |packages|
    ensures IsSocket(cpus, PackageExtents(packages)[i])
  {
    var r := PackageExtents(packages)[i];
    TilesInside(PackageExtents(packages), 0, |cpus|, i);
    forall x | 0 <= x < |cpus| ensures r.Holds(x) <==> cpus[x].packageId == cpus[r.start].packageId {
      PackageHoldsItsId(cpus, packages, i, x);
    }
  }

  /** What the ranges of a test are, told by its schedule and by the topology. */
  ghost predicate RangesMean(schedule: Schedule, noFork: bool, maxCores: int, cpus: seq<Cpu>, packages: seq<Package>, ranges: seq<Range>) {
    var topology := UsesTopology(noFork, maxCores, |cpus|, |packages|);
    && (schedule.Sequential? || schedule.FullSystem? ==> ranges == [Range(0, |cpus|)])
    && (schedule.IsolateSocket? && topology ==>
          |ranges| == |packages| && forall i :: 0 <= i < |ranges| ==> ranges[i] == Extent(packages[i].cores))
    && (schedule.IsolateSocket? && topology && Ordered(cpus) ==> forall i :: 0 <= i < |ranges| ==> IsSocket(cpus, ranges[i]))
    && (schedule.Default? && topology ==>
          exists parts :: ranges == Flat(parts) && EvenParts(cpus, packages, EffectiveMax(maxCores, true), parts))
  }

  lemma GetsMeans(schedule: Schedule, noFork: bool, maxCores: int, cpus: seq<Cpu>, packages: seq<Package>, plans: Plans, ranges: seq<Range>)
    requires packages != [] ==> PackagesOf(cpus, packages, |cpus|)
    requires PlansMean(noFork, maxCores, cpus, packages, plans) && Gets(schedule, plans, |cpus|, ranges)
    ensures RangesMean(schedule, noFork, maxCores, cpus, packages, ranges)
  {
    if schedule.IsolateSocket? && UsesTopology(noFork, maxCores, |cpus|, |packages|) {
      SocketPerChild(cpus, packages, EffectiveMax(maxCores, true), plans, ranges);
    }
  }

  /** Start-up, and the first thing done for a test. */
  method PrepareTest(noFork: bool, maxCores: int, cpus: seq<Cpu>, packages: seq<Package>, offset: nat, schedule: Schedule)
    returns (app: Application, count: nat)
    requires |cpus| > 0 && (packages != [] ==> PackagesOf(cpus, packages, |cpus|))
    ensures app.Valid() && 0 < count <= app.shmem.mainThreadCount && Tiles(app.shmem.cpuRanges[..count], 0, |cpus|)
    ensures RangesMean(schedule, noFork, maxCores, cpus, packages, app.shmem.cpuRanges[..count])
    ensures noFork ==> count == 1
  {
    app := Startup(noFork, maxCores, cpus, packages, offset);
    count := app.SlicesForTest(schedule);
    GetsMeans(schedule, noFork, maxCores, cpus, packages, app.plans, app.shmem.cpuRanges[..count]);
  }

  method MakePlans(noFork: bool, maxCores: int, cpus: seq<Cpu>, packages: seq<Package>) returns (plans: Plans)
    requires |cpus| > 0 && (packages != [] ==> PackagesOf(cpus, packages, |cpus|))
    ensures PlansOk(plans, |cpus|) && plans.heuristic != [] && PlansMean(noFork, maxCores, cpus, packages, plans)
    ensures noFork ==> plans == Plans([Range(0, |cpus|)], [Range(0, |cpus|)])
  {
    var isolate, heuristic := SlicePlanInit(noFork, maxCores, cpus, packages);
    BranchMeans(noFork, maxCores, cpus, packages, Plans(isolate, heuristic));
    plans := Plans(isolate, heuristic);
  }

  /** Start-up of the parent process. */
  method Startup(noFork: bool, maxCores: int, cpus: seq<Cpu>, packages: seq<Package>, offset: nat) returns (app: Application)
    requires |cpus| > 0 && (packages != [] ==> PackagesOf(cpus, packages, |cpus|))
    ensures fresh(app) && fresh(app.shmem) && app.Valid()
    ensures app.shmem.totalCpuCount == |cpus| && app.shmem.threadDataOffset == offset
    ensures PlansMean(noFork, maxCores, cpus, packages, app.plans)
    ensures noFork ==> app.plans == Plans([Range(0, |cpus|)], [Range(0, |cpus|)])
  {
    var plans := MakePlans(noFork, maxCores, cpus, packages);
    var shmem := new SharedMemory.Commit(offset, plans.heuristic, |cpus|);
    app := new Application.Attach(shmem, plans);
    app.RestrictTopology(Range(0, |cpus|));
  }

  /** Two records do not overlap. */
  predicate Apart(a: nat, b: nat) {
    a + RECORD <= b || b + RECORD <= a
  }

  predicate InFile(shmem: SharedMemory, a: nat)
    reads shmem
  {
    shmem.threadDataOffset <= a && a + RECORD <= shmem.size
  }

  /** The threads whose records a child uses: its main thread and its test threads. */
  predicate OwnThread(child: Application, thread: int)
    reads child
  {
    -1 <= thread < child.threadCount
  }

  /** Every record a child reaches is inside the file, and is the one the parent finds under the
      slice's number or the CPU's. */
  lemma ChildInFile(parent: Application, child: Application, count: nat, slice: nat, thread: int)
    requires child.ChildOf(parent, slice) && slice < count <= parent.shmem.mainThreadCount
    requires Tiles(parent.shmem.cpuRanges[..count], 0, parent.shmem.totalCpuCount)
    requires OwnThread(child, thread)
    ensures InFile(parent.shmem, child.ThreadData(thread))
    ensures thread < 0 ==> child.ThreadData(thread) == parent.ThreadData(-1 - slice)
    ensures thread >= 0 ==> child.cpuInfo + thread < parent.threadCount
    ensures thread >= 0 ==> child.ThreadData(thread) == parent.ThreadData(child.cpuInfo + thread)
  {
    var ranges := parent.shmem.cpuRanges[..count];
    assert ranges[slice] == parent.shmem.cpuRanges[slice];
    TilesInside(ranges, 0, parent.shmem.totalCpuCount, slice);
    RoundUpBounds(RECORD * parent.shmem.mainThreadCount);
    RoundUpBounds(RoundUpToPage(RECORD * parent.shmem.mainThreadCount) + RECORD * parent.shmem.totalCpuCount);
  }

  /** Records of the parent under different numbers are apart. */
  lemma RecordsApart(parent: Application, x: int, y: int)
    requires parent.Attached() && x != y
    requires 0 - parent.shmem.mainThreadCount <= x < parent.threadCount
    requires 0 - parent.shmem.mainThreadCount <= y < parent.threadCount
    ensures Apart(parent.ThreadData(x), parent.ThreadData(y))
  {
    RoundUpBounds(RECORD * parent.shmem.mainThreadCount);
  }

  /** Two children of one test never reach the same byte of a record. */
  lemma ChildrenApart(parent: Application, a: Application, b: Application, count: nat, i: nat, j: nat, t: int, u: int)
    requires a.ChildOf(parent, i) && b.ChildOf(parent, j)
    requires i < count && j < count && i != j && count <= parent.shmem.mainThreadCount
    requires Tiles(parent.shmem.cpuRanges[..count], 0, parent.shmem.totalCpuCount)
    requires OwnThread(a, t) && OwnThread(b, u)
    ensures Apart(a.ThreadData(t), b.ThreadData(u))
  {
    ChildInFile(parent, a, count, i, t);
    ChildInFile(parent, b, count, j, u);
    var ranges := parent.shmem.cpuRanges[..count];
    assert ranges[i] == parent.shmem.cpuRanges[i] && ranges[j] == parent.shmem.cpuRanges[j];
    if i < j {
      TilesOrdered(ranges, 0, parent.shmem.totalCpuCount, i, j);
    } else {
      TilesOrdered(ranges, 0, parent.shmem.totalCpuCount, j, i);
    }
    RecordsApart(parent, if t < 0 then -1 - i else a.cpuInfo + t, if u < 0 then -1 - j else b.cpuInfo + u);
  }

  /** Every record of a CPU belongs to one child. */
  lemma EveryCpuHasChild(parent: Application, count: nat, cpu: nat) returns (slice: nat)
    requires parent.Valid() && count <= parent.shmem.mainThreadCount && cpu < parent.shmem.totalCpuCount
    requires Tiles(parent.shmem.cpuRanges[..count], 0, parent.shmem.totalCpuCount)
    ensures slice < count
    ensures forall child: Application :: child.ChildOf(parent, slice) ==>
              child.cpuInfo <= cpu && OwnThread(child, cpu - child.cpuInfo)
              && child.ThreadData(cpu - child.cpuInfo) == parent.ThreadData(cpu)
  {
    slice := TilesCover(parent.shmem.cpuRanges[..count], 0, parent.shmem.totalCpuCount, cpu);
  }
}
