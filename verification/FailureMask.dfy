/** The failure mask: one character for each core, saying which of its threads failed. */
module FailureMask {
  import opened Bits
  import opened Ranges
  import opened CpuOrder
  import T = Topology

  const MAX_HWTHREADS_PER_CORE := 4

  /** A thread as the mask sees it: its id within its core, and its index among the CPUs. */
  datatype Thread = Thread(threadId: nat, cpu: nat)

  type Threads = seq<Thread>      // of one core
  type CoreList = seq<Threads>    // of one package

  /** Thread ids within a core are small and distinct. */
  ghost predicate CoreOk(core: Threads) {
    && (forall i :: 0 <= i < |core| ==> core[i].threadId < MAX_HWTHREADS_PER_CORE)
    && (forall i, j :: 0 <= i < j < |core| ==> core[i].threadId != core[j].threadId)
  }

  ghost predicate PackageOk(p: CoreList) {
    forall i :: 0 <= i < |p| ==> CoreOk(p[i])
  }

  ghost predicate TopologyOk(packages: seq<CoreList>) {
    forall i :: 0 <= i < |packages| ==> PackageOk(packages[i])
  }

  function Character(mask: nat): char
    requires mask < 36
  {
    if mask < 10 then '0' + mask as char else 'a' + (mask - 10) as char
  }

  // ---------------------------------------------------------------------------------------------
  // One core
  // ---------------------------------------------------------------------------------------------

  function ThreadMask(core: Threads, failed: set<nat>): nat {
    if core == [] then 0
    else
      var t := core[|core| - 1];
      var before := ThreadMask(core[..|core| - 1], failed);
      if t.cpu in failed then Or(before, Pow2(t.threadId)) else before
  }

  function FailCount(core: Threads, failed: set<nat>): nat {
    if core == [] then 0
    else FailCount(core[..|core| - 1], failed) + if core[|core| - 1].cpu in failed then 1 else 0
  }

  ghost predicate HasFailed(core: Threads, failed: set<nat>, id: nat) {
    exists i :: 0 <= i < |core| && core[i].threadId == id && core[i].cpu in failed
  }

  lemma HasFailedStep(core: Threads, failed: set<nat>, id: nat)
    requires core != []
    ensures var t := core[|core| - 1];
            HasFailed(core, failed, id) <==> HasFailed(core[..|core| - 1], failed, id) || (t.threadId == id && t.cpu in failed)
  {
    var before := core[..|core| - 1];
    if HasFailed(before, failed, id) {
      var i :| 0 <= i < |before| && before[i].threadId == id && before[i].cpu in failed;
      assert core[i] == before[i];
    }
    if HasFailed(core, failed, id) {
      var i :| 0 <= i < |core| && core[i].threadId == id && core[i].cpu in failed;
      if i < |before| { assert before[i] == core[i]; }
    }
  }

  /** Bit `id` of the mask tells whether the thread with that id failed. */
  lemma {:induction false} MaskBit(core: Threads, failed: set<nat>, id: nat)
    ensures Bit(ThreadMask(core, failed), id) <==> HasFailed(core, failed, id)
    decreases |core|
  {
    if core == [] {
      ZeroHasNoBits(id);
    } else {
      var t := core[|core| - 1];
      var before := core[..|core| - 1];
      MaskBit(before, failed, id);
      OrBit(ThreadMask(before, failed), Pow2(t.threadId), id);
      Pow2Bit(t.threadId, id);
      HasFailedStep(core, failed, id);
    }
  }

  lemma MaskSmall(core: Threads, failed: set<nat>)
    requires CoreOk(core)
    ensures ThreadMask(core, failed) < 16
  {
    var m := ThreadMask(core, failed);
    forall i: nat | 4 <= i ensures !Bit(m, i) { MaskBit(core, failed, i); }
    BelowIfClear(m, 4);
    assert Pow2(4) == 16;
  }

  lemma {:induction false} FailCounts(core: Threads, failed: set<nat>)
    ensures FailCount(core, failed) <= |core|
    ensures FailCount(core, failed) == 0 <==> forall i :: 0 <= i < |core| ==> core[i].cpu !in failed
    ensures FailCount(core, failed) == |core| <==> forall i :: 0 <= i < |core| ==> core[i].cpu in failed
    decreases |core|
  {
    if core != [] {
      var before := core[..|core| - 1];
      FailCounts(before, failed);
      assert forall i :: 0 <= i < |before| ==> core[i] == before[i];
    }
  }

  /** The mask is zero just when no thread failed. */
  lemma MaskZero(core: Threads, failed: set<nat>)
    ensures ThreadMask(core, failed) == 0 <==> FailCount(core, failed) == 0
  {
    var m := ThreadMask(core, failed);
    FailCounts(core, failed);
    if m == 0 {
      forall i | 0 <= i < |core| ensures core[i].cpu !in failed {
        MaskBit(core, failed, core[i].threadId);
        ZeroHasNoBits(core[i].threadId);
      }
    } else {
      var n := HasTopBit(m);
      MaskBit(core, failed, n);
    }
  }

  /** The character a core should get; a core without threads keeps the filler. */
  ghost function CoreChar(core: Threads, failed: set<nat>): char
    requires CoreOk(core)
  {
    MaskSmall(core, failed);
    if core == [] then '_'
    else if FailCount(core, failed) == 0 then '.'
    else if FailCount(core, failed) == |core| then 'X'
    else Character(ThreadMask(core, failed))
  }

  /** The mask behind a digit or letter, or no mask. */
  function MaskOfChar(c: char): nat {
    if '0' <= c <= '9' then (c - '0') as nat
    else if 'a' <= c <= 'z' then (c - 'a') as nat + 10
    else 0
  }

  /** The character of a core says that this thread of it failed. */
  predicate Marks(c: char, t: Thread) {
    c == 'X' || Bit(MaskOfChar(c), t.threadId)
  }

  lemma CharacterMask(mask: nat)
    requires mask < 16
    ensures Character(mask) != 'X' && Character(mask) != ':' && MaskOfChar(Character(mask)) == mask
  {
  }

  /** A core's character gives back its failed threads. */
  lemma CoreRoundTrip(core: Threads, failed: set<nat>)
    requires CoreOk(core)
    ensures CoreChar(core, failed) != ':'
    ensures forall i :: 0 <= i < |core| ==> (Marks(CoreChar(core, failed), core[i]) <==> core[i].cpu in failed)
  {
    MaskSmall(core, failed);
    CharacterMask(ThreadMask(core, failed));
    FailCounts(core, failed);
    forall i | 0 <= i < |core| ensures Marks(CoreChar(core, failed), core[i]) <==> core[i].cpu in failed {
      ZeroHasNoBits(core[i].threadId);
      MaskBit(core, failed, core[i].threadId);
    }
  }

  // ---------------------------------------------------------------------------------------------
  // The string
  // ---------------------------------------------------------------------------------------------

  /** One character for each core, filled up to the width of the largest package. */
  ghost predicate IsPackageMask(s: string, p: CoreList, failed: set<nat>, width: nat)
    requires PackageOk(p)
  {
    && |p| <= width == |s|
    && (forall i :: 0 <= i < |p| ==> s[i] == CoreChar(p[i], failed))
    && (forall i :: |p| <= i < width ==> s[i] == '_')
  }

  ghost predicate AreMasks(parts: seq<string>, packages: seq<CoreList>, failed: set<nat>, width: nat)
    requires TopologyOk(packages)
  {
    |parts| == |packages| && forall i :: 0 <= i < |packages| ==> IsPackageMask(parts[i], packages[i], failed, width)
  }

  /** The parts with colons between them. */
  function Join(parts: seq<string>): string {
    if parts == [] then [] else if |parts| == 1 then parts[0] else parts[0] + [':'] + Join(parts[1..])
  }

  /** The pieces between colons. */
  function Split(s: string): (parts: seq<string>)
    ensures parts != []
  {
    if s == [] then [[]]
    else
      var rest := Split(s[1..]);
      if s[0] == ':' then [[]] + rest else [[s[0]] + rest[0]] + rest[1..]
  }

  lemma {:induction false} SplitPlain(s: string)
    requires ':' !in s
    ensures Split(s) == [s]
    decreases |s|
  {
    if s != [] {
      SplitPlain(s[1..]);
      assert [s[0]] + s[1..] == s;
    }
  }

  lemma {:induction false} SplitColon(s: string, rest: string)
    requires ':' !in s
    ensures Split(s + [':'] + rest) == [s] + Split(rest)
    decreases |s|
  {
    var all := s + [':'] + rest;
    if s == [] {
      assert all[1..] == rest;
    } else {
      assert all[1..] == s[1..] + [':'] + rest;
      SplitColon(s[1..], rest);
      assert [s[0]] + s[1..] == s;
      assert Split(all[1..])[1..] == Split(rest);
    }
  }

  lemma {:induction false} SplitJoin(parts: seq<string>)
    requires parts != [] && forall i :: 0 <= i < |parts| ==> ':' !in parts[i]
    ensures Split(Join(parts)) == parts
    decreases |parts|
  {
    if |parts| == 1 {
      SplitPlain(parts[0]);
    } else {
      SplitJoin(parts[1..]);
      SplitColon(parts[0], Join(parts[1..]));
    }
  }

  /** A thread, by its place in the topology. */
  predicate Exists(packages: seq<CoreList>, i: int, j: int, k: int) {
    0 <= i < |packages| && 0 <= j < |packages[i]| && 0 <= k < |packages[i][j]|
  }

  /** What a reader of the mask takes as failed. */
  predicate ReadsFailed(packages: seq<CoreList>, mask: string, i: int, j: int, k: int)
    requires Exists(packages, i, j, k)
  {
    var parts := Split(mask);
    i < |parts| && j < |parts[i]| && Marks(parts[i][j], packages[i][j][k])
  }

  lemma NoColon(s: string, p: CoreList, failed: set<nat>, width: nat)
    requires PackageOk(p) && IsPackageMask(s, p, failed, width)
    ensures ':' !in s
  {
    forall i | 0 <= i < |s| ensures s[i] != ':' {
      if i < |p| { CoreRoundTrip(p[i], failed); }
    }
  }

  /** The mask and the topology together tell which threads failed. */
  lemma MaskRoundTrip(packages: seq<CoreList>, failed: set<nat>, parts: seq<string>, width: nat, i: int, j: int, k: int)
    requires TopologyOk(packages) && AreMasks(parts, packages, failed, width) && Exists(packages, i, j, k)
    ensures ReadsFailed(packages, Join(parts), i, j, k) <==> packages[i][j][k].cpu in failed
  {
    forall n | 0 <= n < |parts| ensures ':' !in parts[n] { NoColon(parts[n], packages[n], failed, width); }
    SplitJoin(parts);
    CoreRoundTrip(packages[i][j], failed);
  }

  // ---------------------------------------------------------------------------------------------
  // The printer
  // ---------------------------------------------------------------------------------------------

  method ScanCore(core: Threads, failed: set<nat>) returns (mask: nat, failCount: nat, threadCount: nat)
    ensures mask == ThreadMask(core, failed) && failCount == FailCount(core, failed) && threadCount == |core|
  {
    mask, failCount, threadCount := 0, 0, 0;
    for i := 0 to |core|
      invariant mask == ThreadMask(core[..i], failed) && failCount == FailCount(core[..i], failed) && threadCount == i
    {
      assert core[..i + 1][..i] == core[..i];
      if core[i].cpu in failed {
        mask := Or(mask, Pow2(core[i].threadId));
        failCount := failCount + 1;
      }
      threadCount := threadCount + 1;
    }
    assert core[..|core|] == core;
  }

  ghost predicate NoneFailed(p: CoreList, failed: set<nat>, n: nat) {
    forall j, k :: 0 <= j < n && j < |p| && 0 <= k < |p[j]| ==> p[j][k].cpu !in failed
  }

  method MaskPackage(p: CoreList, failed: set<nat>, width: nat) returns (s: string, fails: nat)
    requires PackageOk(p) && |p| <= width
    ensures IsPackageMask(s, p, failed, width)
    ensures fails == 0 <==> NoneFailed(p, failed, |p|)
  {
    s := seq(width, i => '_');
    fails := 0;
    for i := 0 to |p|
      invariant |s| == width && (forall j :: 0 <= j < i ==> s[j] == CoreChar(p[j], failed))
      invariant forall j :: i <= j < width ==> s[j] == '_'
      invariant fails == 0 <==> NoneFailed(p, failed, i)
    {
      var mask, failCount, threadCount := ScanCore(p[i], failed);
      MaskZero(p[i], failed);
      MaskSmall(p[i], failed);
      FailCounts(p[i], failed);
      if threadCount == 0 {
        continue;
      }
      var c;
      if mask == 0 {
        c := '.';
      } else if failCount == threadCount {
        c := 'X';
      } else {
        c := Character(mask);
      }
      s := s[i := c];
      fails := fails + failCount;
    }
  }

  ghost predicate AnyFailed(packages: seq<CoreList>, failed: set<nat>, n: nat) {
    exists i :: 0 <= i < n && i < |packages| && !NoneFailed(packages[i], failed, |packages[i]|)
  }

  /** build_falure_mask: empty if nothing failed, otherwise the masks of the packages, joined. */
  method BuildFailureMask(packages: seq<CoreList>, failed: set<nat>) returns (result: string, ghost parts: seq<string>, ghost width: nat)
    requires TopologyOk(packages)
    ensures result == [] <==> !AnyFailed(packages, failed, |packages|)
    ensures result != [] ==> AreMasks(parts, packages, failed, width) && result == Join(parts)
  {
    result, parts, width := [], [], 0;
    if packages == [] {
      return;
    }
    var maxCores := 0;
    for i := 0 to |packages|
      invariant forall j :: 0 <= j < i ==> |packages[j]| <= maxCores
    {
      if |packages[i]| > maxCores {
        maxCores := |packages[i]|;
      }
    }
    var total := 0;
    var masks: seq<string> := [];
    for i := 0 to |packages|
      invariant |masks| == i && forall j :: 0 <= j < i ==> IsPackageMask(masks[j], packages[j], failed, maxCores)
      invariant total == 0 <==> !AnyFailed(packages, failed, i)
    {
      var s, fails := MaskPackage(packages[i], failed, maxCores);
      masks := masks + [s];
      total := total + fails;
    }
    if total == 0 {
      return;
    }
    parts, width := masks, maxCores;
    for i := 0 to |masks|
      invariant result == JoinAll(masks[..i])
    {
      assert masks[..i + 1][..i] == masks[..i];
      result := result + masks[i] + [':'];
    }
    assert masks[..|masks|] == masks;
    JoinAllIsJoin(masks);
    JoinLength(masks, packages, failed, maxCores);
    result := result[..|result| - 1];
  }

  /** Every part with a colon after it. */
  function JoinAll(parts: seq<string>): string {
    if parts == [] then [] else JoinAll(parts[..|parts| - 1]) + parts[|parts| - 1] + [':']
  }

  lemma {:induction false} JoinAllFirst(parts: seq<string>)
    requires parts != []
    ensures JoinAll(parts) == parts[0] + [':'] + JoinAll(parts[1..])
    decreases |parts|
  {
    var m := |parts| - 1;
    if m > 0 {
      JoinAllFirst(parts[..m]);
      var rest := parts[1..];
      assert parts[..m][0] == parts[0] && parts[..m][1..] == rest[..m - 1];
      assert rest[m - 1] == parts[m] && |rest| == m;
    } else {
      assert parts[..0] == [] && parts[1..] == [];
    }
  }

  lemma {:induction false} JoinAllIsJoin(parts: seq<string>)
    requires parts != []
    ensures JoinAll(parts) == Join(parts) + [':']
    decreases |parts|
  {
    JoinAllFirst(parts);
    if |parts| > 1 {
      JoinAllIsJoin(parts[1..]);
    } else {
      assert parts[1..] == [];
    }
  }

  lemma JoinLength(parts: seq<string>, packages: seq<CoreList>, failed: set<nat>, width: nat)
    requires TopologyOk(packages) && AreMasks(parts, packages, failed, width) && AnyFailed(packages, failed, |packages|)
    ensures Join(parts) != []
  {
    var i :| 0 <= i < |packages| && !NoneFailed(packages[i], failed, |packages[i]|);
    assert |packages[i]| > 0 && |parts[i]| > 0 && |parts[0]| == width;
  }

  // ---------------------------------------------------------------------------------------------
  // The mask of a topology
  // ---------------------------------------------------------------------------------------------

  function ThreadIdOf(cpus: seq<Cpu>, x: nat): nat {
    if x < |cpus| && cpus[x].threadId >= 0 then cpus[x].threadId else 0
  }

  function ThreadsOf(cpus: seq<Cpu>, core: Range): Threads {
    seq(core.count, i requires 0 <= i < core.count => Thread(ThreadIdOf(cpus, core.start + i), core.start + i))
  }

  function CoresOf(cpus: seq<Cpu>, cores: seq<Range>): CoreList {
    seq(|cores|, j requires 0 <= j < |cores| => ThreadsOf(cpus, cores[j]))
  }

  function View(cpus: seq<Cpu>, packages: seq<T.Package>): seq<CoreList> {
    seq(|packages|, i requires 0 <= i < |packages| => CoresOf(cpus, packages[i].cores))
  }

  /** Every CPU is a thread of some core of some package. */
  lemma FindThread(cpus: seq<Cpu>, packages: seq<T.Package>, x: nat) returns (i: nat, j: nat, k: nat)
    requires T.PackagesOf(cpus, packages, |cpus|) && x < |cpus|
    ensures Exists(View(cpus, packages), i, j, k) && View(cpus, packages)[i][j][k].cpu == x
  {
    var rs := T.PackageExtents(packages);
    i := TilesCover(rs, 0, |cpus|, x);
    assert rs[i] == T.Extent(packages[i].cores);
    j := FindCore(cpus, packages, i, x);
    var core := packages[i].cores[j];
    k := x - core.start;
    assert View(cpus, packages)[i] == CoresOf(cpus, packages[i].cores);
    assert CoresOf(cpus, packages[i].cores)[j] == ThreadsOf(cpus, core);
  }

  lemma FindCore(cpus: seq<Cpu>, packages: seq<T.Package>, i: nat, x: nat) returns (j: nat)
    requires T.AllPackagesOk(cpus, packages) && i < |packages| && T.Extent(packages[i].cores).Holds(x)
    ensures j < |packages[i].cores| && packages[i].cores[j].Holds(x)
  {
    assert T.PackageAt(cpus, packages, i);
    var r := T.Extent(packages[i].cores);
    j := TilesCover(packages[i].cores, r.start, r.end, x);
  }

  /** Threads of the view are CPUs of the array. */
  lemma ThreadIsCpu(cpus: seq<Cpu>, packages: seq<T.Package>, i: int, j: int, k: int)
    requires T.PackagesOf(cpus, packages, |cpus|) && Exists(View(cpus, packages), i, j, k)
    ensures View(cpus, packages)[i][j][k].cpu < |cpus|
  {
    var cores := packages[i].cores;
    assert View(cpus, packages)[i] == CoresOf(cpus, cores) && CoresOf(cpus, cores)[j] == ThreadsOf(cpus, cores[j]);
    assert T.PackageAt(cpus, packages, i);
    TilesInside(cores, T.Extent(cores).start, T.Extent(cores).end, j);
  }

  /** A reader of the mask takes CPU `x` as failed. */
  ghost predicate ReadsCpu(cpus: seq<Cpu>, packages: seq<T.Package>, mask: string, x: nat) {
    exists i, j, k :: Exists(View(cpus, packages), i, j, k) && View(cpus, packages)[i][j][k].cpu == x
                      && ReadsFailed(View(cpus, packages), mask, i, j, k)
  }

  /** For the topology of an array of CPUs: the mask tells of each CPU whether it failed. */
  lemma MaskTellsCpus(cpus: seq<Cpu>, packages: seq<T.Package>, failed: set<nat>, parts: seq<string>, width: nat, x: nat)
    requires T.PackagesOf(cpus, packages, |cpus|) && TopologyOk(View(cpus, packages)) && x < |cpus|
    requires AreMasks(parts, View(cpus, packages), failed, width)
    ensures ReadsCpu(cpus, packages, Join(parts), x) <==> x in failed
  {
    var view: seq<CoreList> := View(cpus, packages);
    if ReadsCpu(cpus, packages, Join(parts), x) {
      var i, j, k :| Exists(view, i, j, k) && view[i][j][k].cpu == x && ReadsFailed(view, Join(parts), i, j, k);
      MaskRoundTrip(view, failed, parts, width, i, j, k);
    }
    var i, j, k := FindThread(cpus, packages, x);
    MaskRoundTrip(view, failed, parts, width, i, j, k);
  }

  lemma AnyFailedIff(cpus: seq<Cpu>, packages: seq<T.Package>, failed: set<nat>)
    requires T.PackagesOf(cpus, packages, |cpus|)
    ensures AnyFailed(View(cpus, packages), failed, |packages|) <==> exists x :: 0 <= x < |cpus| && x in failed
  {
    var view: seq<CoreList> := View(cpus, packages);
    if AnyFailed(view, failed, |packages|) {
      var i :| 0 <= i < |view| && !NoneFailed(view[i], failed, |view[i]|);
      var j, k :| 0 <= j < |view[i]| && 0 <= k < |view[i][j]| && view[i][j][k].cpu in failed;
      ThreadIsCpu(cpus, packages, i, j, k);
    }
    if x: nat :| x < |cpus| && x in failed {
      var i, j, k := FindThread(cpus, packages, x);
      assert !NoneFailed(view[i], failed, |view[i]|);
    }
  }

  /** The failure mask of the system: nothing without a topology or without failures; otherwise it
      tells which CPUs failed and which did not. */
  method SystemMask(cpus: seq<Cpu>, packages: seq<T.Package>, failed: set<nat>) returns (mask: string)
    requires packages != [] ==> T.PackagesOf(cpus, packages, |cpus|) && TopologyOk(View(cpus, packages))
    ensures mask == [] <==> packages == [] || forall x :: 0 <= x < |cpus| ==> x !in failed
    ensures mask != [] ==> forall x :: 0 <= x < |cpus| ==> (ReadsCpu(cpus, packages, mask, x) <==> x in failed)
  {
    if packages == [] {
      return [];
    }
    ghost var parts, width;
    mask, parts, width := BuildFailureMask(View(cpus, packages), failed);
    AnyFailedIff(cpus, packages, failed);
    if mask != [] {
      forall x | 0 <= x < |cpus| ensures ReadsCpu(cpus, packages, mask, x) <==> x in failed {
        MaskTellsCpus(cpus, packages, failed, parts, width, x);
      }
    }
  }
}
