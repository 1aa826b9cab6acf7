/** What a CPU set parameter leaves, told by the topology. */
module CpuSetTopology {
  import opened Ranges
  import opened CpuOrder
  import opened CpuSetParam
  import T = Topology

  /** A parameter of one search for a package, a core or a thread; -1 is any. */
  function SearchFor(package: int, core: int, thread: int): Param {
    Param(false, AnyOther, [Search(package, core, thread)])
  }

  lemma SelectedBySearch(package: int, core: int, thread: int, c: Cpu)
    ensures Selected(SearchFor(package, core, thread), 1, c) <==>
              && (package == -1 || c.packageId == package) && (core == -1 || c.coreId == core)
              && (thread == -1 || c.threadId == thread)
  {
    var p := SearchFor(package, core, thread);
    assert p.tokens[0] == Search(package, core, thread);
    assert Selected(p, 1, c) <==> Selects(p.word, p.tokens[0], c);
  }

  /** The CPUs kept are those of the old array that are selected, or those that are not. */
  lemma {:induction false} FilteredIn(cpus: seq<Cpu>, p: Param, c: Cpu)
    ensures c in Filtered(cpus, p) <==> c in cpus && Selected(p, |p.tokens|, c) != p.negated
    decreases |cpus|
  {
    if cpus != [] {
      var m := |cpus| - 1;
      FilteredIn(cpus[..m], p, c);
      assert cpus == cpus[..m] + [cpus[m]];
    }
  }

  ghost predicate Keeps(p: Param, c: Cpu) {
    Selected(p, |p.tokens|, c) != p.negated
  }

  lemma FilteredLast(cpus: seq<Cpu>, p: Param, k: nat)
    requires 0 < k <= |cpus|
    ensures Filtered(cpus[..k], p) == Filtered(cpus[..k - 1], p) + if Keeps(p, cpus[k - 1]) then [cpus[k - 1]] else []
  {
    var s := cpus[..k];
    assert s[..k - 1] == cpus[..k - 1] && s[k - 1] == cpus[k - 1];
  }

  /** The part of a range before place `k`. */
  function EndBefore(r: Range, k: nat): nat {
    if k <= r.start then r.start else if k <= r.end then k else r.end
  }

  /** If just the CPUs of a range are wanted, that range is left. */
  lemma {:induction false} FilteredRange(cpus: seq<Cpu>, p: Param, r: Range, k: nat)
    requires r.end <= |cpus| && forall x :: 0 <= x < |cpus| ==> (r.Holds(x) <==> Keeps(p, cpus[x]))
    requires k <= |cpus|
    ensures Filtered(cpus[..k], p) == cpus[r.start..EndBefore(r, k)]
    decreases k
  {
    if k > 0 {
      FilteredRange(cpus, p, r, k - 1);
      FilteredLast(cpus, p, k);
      RangeGrows(cpus, r, k);
    }
  }

  lemma RangeGrows(cpus: seq<Cpu>, r: Range, k: nat)
    requires 0 < k <= |cpus| && r.end <= |cpus|
    ensures r.start <= EndBefore(r, k - 1) <= EndBefore(r, k) <= |cpus|
    ensures cpus[r.start..EndBefore(r, k)] == cpus[r.start..EndBefore(r, k - 1)] + if r.Holds(k - 1) then [cpus[k - 1]] else []
  {
  }

  /** The id of package `i`. */
  function IdOf(cpus: seq<Cpu>, packages: seq<T.Package>, i: nat): int
    requires i < |packages|
  {
    var r := T.PackageExtents(packages)[i];
    if r.start < |cpus| then cpus[r.start].packageId else -1
  }

  /** p<n> leaves the CPUs of the package with that id. */
  lemma {:induction false} PackageIsLeft(cpus: seq<Cpu>, packages: seq<T.Package>, i: nat)
    requires T.PackagesOf(cpus, packages, |cpus|) && T.Ordered(cpus) && i < |packages|
    ensures var r := T.Extent(packages[i].cores);
            r.count > 0 && r.end <= |cpus| && Filtered(cpus, SearchFor(IdOf(cpus, packages, i), -1, -1)) == cpus[r.start..r.end]
  {
    var r := T.PackageExtents(packages)[i];
    var p := SearchFor(IdOf(cpus, packages, i), -1, -1);
    TilesInside(T.PackageExtents(packages), 0, |cpus|, i);
    forall x | 0 <= x < |cpus| ensures r.Holds(x) <==> Keeps(p, cpus[x]) {
      T.PackageHoldsItsId(cpus, packages, i, x);
      SelectedBySearch(IdOf(cpus, packages, i), -1, -1, cpus[x]);
      assert T.Known(cpus[r.start]);
    }
    FilteredRange(cpus, p, r, |cpus|);
    assert cpus[..|cpus|] == cpus;
  }

  /** CPU `x` is in a core of package `i` with this core id. */
  ghost predicate InCore(cpus: seq<Cpu>, packages: seq<T.Package>, i: nat, core: int, x: nat)
    requires i < |packages|
  {
    exists j :: 0 <= j < |packages[i].cores| && packages[i].cores[j].Holds(x) && CoreId(cpus, packages[i].cores[j]) == core
  }

  function CoreId(cpus: seq<Cpu>, core: T.Core): int {
    if core.start < |cpus| then cpus[core.start].coreId else -1
  }

  /** p<n>c<m> leaves the CPUs of the cores with that id in that package. */
  lemma {:induction false} CoreIsLeft(cpus: seq<Cpu>, packages: seq<T.Package>, i: nat, core: int, x: nat)
    requires T.PackagesOf(cpus, packages, |cpus|) && T.Ordered(cpus) && i < |packages| && core >= 0 && x < |cpus|
    ensures cpus[x] in Filtered(cpus, SearchFor(IdOf(cpus, packages, i), core, -1)) <==> InCore(cpus, packages, i, core, x)
  {
    var r := T.PackageExtents(packages)[i];
    FilteredIn(cpus, SearchFor(IdOf(cpus, packages, i), core, -1), cpus[x]);
    SelectedBySearch(IdOf(cpus, packages, i), core, -1, cpus[x]);
    T.PackageHoldsItsId(cpus, packages, i, x);
    assert T.Known(cpus[r.start]);
    CoreTells(cpus, packages, i, core, x);
  }

  lemma {:induction false} CoreTells(cpus: seq<Cpu>, packages: seq<T.Package>, i: nat, core: int, x: nat)
    requires T.PackagesOf(cpus, packages, |cpus|) && i < |packages| && x < |cpus|
    ensures InCore(cpus, packages, i, core, x) <==> T.PackageExtents(packages)[i].Holds(x) && cpus[x].coreId == core
  {
    var r, cores := T.Extent(packages[i].cores), packages[i].cores;
    assert T.PackageAt(cpus, packages, i);
    forall j | 0 <= j < |cores| && cores[j].Holds(x) ensures r.Holds(x) && CoreId(cpus, cores[j]) == cpus[x].coreId {
      TilesInside(cores, r.start, r.end, j);
      assert T.OneKey(T.CoreIds(cpus), cores, j);
      assert T.CoreIds(cpus)[x] == cpus[x].coreId && T.CoreIds(cpus)[cores[j].start] == cpus[cores[j].start].coreId;
    }
    if r.Holds(x) {
      var j := TilesCover(cores, r.start, r.end, x);
    }
  }

  /** "odd" and "even" split the CPUs by their numbers. */
  lemma OddAndEven(cpus: seq<Cpu>, c: Cpu)
    requires c in cpus
    ensures c in Filtered(cpus, Param(false, Odd, [Other])) <==> c.cpuNumber % 2 == 1
    ensures c in Filtered(cpus, Param(false, Even, [Other])) <==> c.cpuNumber % 2 == 0
  {
    var odd, even := Param(false, Odd, [Other]), Param(false, Even, [Other]);
    FilteredIn(cpus, odd, c);
    FilteredIn(cpus, even, c);
    assert odd.tokens[0] == Other && even.tokens[0] == Other;
    assert Selected(odd, 1, c) <==> Selects(Odd, odd.tokens[0], c);
    assert Selected(even, 1, c) <==> Selects(Even, even.tokens[0], c);
  }

  /** A number selects the CPU with that number. */
  lemma NumberIsLeft(cpus: seq<Cpu>, word: Word, n: int, c: Cpu)
    ensures c in Filtered(cpus, Param(false, word, [Number(n)])) <==> c in cpus && c.cpuNumber == n
  {
    var p := Param(false, word, [Number(n)]);
    FilteredIn(cpus, p, c);
    assert p.tokens[0] == Number(n);
    assert Selected(p, 1, c) <==> Selects(word, p.tokens[0], c);
  }

  /** A negated parameter leaves what the parameter would remove. */
  lemma NegatedIsRest(cpus: seq<Cpu>, p: Param, c: Cpu)
    requires c in cpus
    ensures c in Filtered(cpus, p.(negated := true)) <==> c !in Filtered(cpus, p.(negated := false))
  {
    FilteredIn(cpus, p.(negated := true), c);
    FilteredIn(cpus, p.(negated := false), c);
    assert Selected(p.(negated := true), |p.tokens|, c) <==> Selected(p.(negated := false), |p.tokens|, c);
  }

  /** More tokens select what each of them does. */
  lemma TokensAdd(cpus: seq<Cpu>, word: Word, a: seq<Selector>, b: seq<Selector>, c: Cpu)
    ensures c in Filtered(cpus, Param(false, word, a + b)) <==>
              c in Filtered(cpus, Param(false, word, a)) || c in Filtered(cpus, Param(false, word, b))
  {
    var p, q, r := Param(false, word, a), Param(false, word, b), Param(false, word, a + b);
    FilteredIn(cpus, p, c);
    FilteredIn(cpus, q, c);
    FilteredIn(cpus, r, c);
    if Selected(p, |a|, c) {
      var j :| 0 <= j < |a| && Selects(word, a[j], c);
      assert r.tokens[j] == a[j];
    }
    if Selected(q, |b|, c) {
      var j :| 0 <= j < |b| && Selects(word, b[j], c);
      assert r.tokens[|a| + j] == b[j];
    }
  }
}
