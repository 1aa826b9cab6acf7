/** apply_cpuset_param and update_topology: keeping only some of the CPUs. */
module CpuSetParam {
  import opened CpuOrder
  import opened ProcessorSet

  // ---------------------------------------------------------------------------------------------
  // What a parameter selects
  // ---------------------------------------------------------------------------------------------

  /** One token between commas, parsed. A topology search has -1 for what it does not restrict. */
  datatype Selector =
    | Number(n: int)
    | BadNumber                                     // starts with a digit, but is not a number
    | Search(package: int, core: int, thread: int)
    | BadSearch                                     // starts with a letter, but is not a search
    | Other                                         // starts with something else

  /** The word the parameter starts with, which decides for all tokens that are not numbers. */
  datatype Word = Odd | Even | AnyOther

  datatype Param = Param(negated: bool, word: Word, tokens: seq<Selector>)

  ghost predicate Matches(id: int, wanted: int) {
    wanted == -1 || id == wanted
  }

  ghost predicate Selects(word: Word, s: Selector, c: Cpu) {
    if s.Number? then c.cpuNumber == s.n
    else if s.BadNumber? then false
    else if !word.AnyOther? then c.cpuNumber % 2 == if word.Odd? then 1 else 0
    else s.Search? && Matches(c.packageId, s.package) && Matches(c.coreId, s.core) && Matches(c.threadId, s.thread)
  }

  /** The token is refused. */
  predicate Wrong(word: Word, s: Selector, cpus: seq<Cpu>) {
    || s.BadNumber?
    || (s.Number? && forall i :: 0 <= i < |cpus| ==> cpus[i].cpuNumber != s.n)
    || (s.BadSearch? && word.AnyOther?)
  }

  /** The CPU is selected by one of the first `k` tokens. */
  ghost predicate Selected(p: Param, k: nat, c: Cpu) {
    exists j :: 0 <= j < k && j < |p.tokens| && Selects(p.word, p.tokens[j], c)
  }

  /** What should be left: the CPUs that are selected, or those that are not. */
  ghost function Filtered(cpus: seq<Cpu>, p: Param): seq<Cpu> {
    if cpus == [] then []
    else
      var c := cpus[|cpus| - 1];
      Filtered(cpus[..|cpus| - 1], p) + if Selected(p, |p.tokens|, c) != p.negated then [c] else []
  }

  ghost predicate NoneWrong(cpus: seq<Cpu>, p: Param, k: nat) {
    forall j :: 0 <= j < k && j < |p.tokens| ==> !Wrong(p.word, p.tokens[j], cpus)
  }

  /** The parameter is not refused: its tokens are right, something is selected, something is left. */
  ghost predicate Accepts(cpus: seq<Cpu>, p: Param) {
    && NoneWrong(cpus, p, |p.tokens|)
    && (exists i :: 0 <= i < |cpus| && Selected(p, |p.tokens|, cpus[i]))
    && (p.negated ==> exists i :: 0 <= i < |cpus| && !Selected(p, |p.tokens|, cpus[i]))
  }

  /** The token selects one of the first `k` CPUs, whose number is `n`. */
  ghost predicate Chooses(word: Word, s: Selector, cpus: seq<Cpu>, k: nat, n: int) {
    exists i :: 0 <= i < k && i < |cpus| && Selects(word, s, cpus[i]) && cpus[i].cpuNumber == n
  }

  /** Sorted, with every CPU number once. */
  ghost predicate CpusOk(cpus: seq<Cpu>) {
    && (forall i, j :: 0 <= i < j < |cpus| ==> Less(cpus[i], cpus[j]))
    && (forall i :: 0 <= i < |cpus| ==> CpuOk(cpus[i]) && cpus[i].cpuNumber >= 0)
    && (forall i, j :: 0 <= i < j < |cpus| ==> cpus[i].cpuNumber != cpus[j].cpuNumber)
  }

  // ---------------------------------------------------------------------------------------------
  // Filtering
  // ---------------------------------------------------------------------------------------------

  /** The CPUs whose number is in the set, or those whose number is not. */
  function Kept(cpus: seq<Cpu>, numbers: set<nat>, members: bool): seq<Cpu> {
    if cpus == [] then []
    else
      var c := cpus[|cpus| - 1];
      Kept(cpus[..|cpus| - 1], numbers, members)
      + if (c.cpuNumber in numbers) == members then [c] else []
  }

  lemma {:induction false} KeptConcat(a: seq<Cpu>, b: seq<Cpu>, numbers: set<nat>, members: bool)
    ensures Kept(a + b, numbers, members) == Kept(a, numbers, members) + Kept(b, numbers, members)
    decreases |b|
  {
    if b == [] {
      assert a + b == a;
    } else {
      var m := |b| - 1;
      assert (a + b)[..|a + b| - 1] == a + b[..m];
      KeptConcat(a, b[..m], numbers, members);
    }
  }

  lemma {:induction false} KeptIn(cpus: seq<Cpu>, numbers: set<nat>, members: bool, c: Cpu)
    ensures c in Kept(cpus, numbers, members) <==> c in cpus && ((c.cpuNumber in numbers) == members)
    decreases |cpus|
  {
    if cpus != [] {
      var m := |cpus| - 1;
      KeptIn(cpus[..m], numbers, members, c);
      assert cpus == cpus[..m] + [cpus[m]];
    }
  }

  /** Numbers that no CPU of the list has make no difference. */
  lemma {:induction false} KeptSame(cpus: seq<Cpu>, numbers: set<nat>, n: nat, members: bool)
    requires forall i :: 0 <= i < |cpus| ==> cpus[i].cpuNumber != n
    ensures Kept(cpus, numbers + {n}, members) == Kept(cpus, numbers, members)
    decreases |cpus|
  {
    if cpus != [] { KeptSame(cpus[..|cpus| - 1], numbers, n, members); }
  }

  /** Where CPU `k` is, or belongs, among those kept. */
  function Place(cpus: seq<Cpu>, numbers: set<nat>, members: bool, k: nat): nat
    requires k < |cpus|
  {
    |Kept(cpus[..k], numbers, members)|
  }

  lemma KeptSplit(cpus: seq<Cpu>, numbers: set<nat>, members: bool, k: nat)
    requires k < |cpus|
    ensures Kept(cpus, numbers, members)
            == Kept(cpus[..k], numbers, members) + Kept([cpus[k]], numbers, members) + Kept(cpus[k + 1..], numbers, members)
  {
    assert cpus == cpus[..k] + [cpus[k]] + cpus[k + 1..];
    KeptConcat(cpus[..k] + [cpus[k]], cpus[k + 1..], numbers, members);
    KeptConcat(cpus[..k], [cpus[k]], numbers, members);
  }

  lemma KeptOne(c: Cpu, numbers: set<nat>, members: bool)
    ensures Kept([c], numbers, members) == if (c.cpuNumber in numbers) == members then [c] else []
  {
    assert [c][..0] == [];
  }

  /** The CPUs before and after CPU `k` do not have its number. */
  lemma OthersSame(cpus: seq<Cpu>, numbers: set<nat>, members: bool, k: nat)
    requires CpusOk(cpus) && k < |cpus|
    ensures var n := cpus[k].cpuNumber;
            && Kept(cpus[..k], numbers + {n}, members) == Kept(cpus[..k], numbers, members)
            && Kept(cpus[k + 1..], numbers + {n}, members) == Kept(cpus[k + 1..], numbers, members)
  {
    KeptSame(cpus[..k], numbers, cpus[k].cpuNumber, members);
    KeptSame(cpus[k + 1..], numbers, cpus[k].cpuNumber, members);
  }

  /** One more number: the list of members gains its CPU ... */
  lemma MemberAdded(cpus: seq<Cpu>, numbers: set<nat>, k: nat)
    requires CpusOk(cpus) && k < |cpus| && cpus[k].cpuNumber !in numbers
    ensures var n := cpus[k].cpuNumber; var s, j := Kept(cpus, numbers, true), Place(cpus, numbers, true, k);
            j <= |s| && Kept(cpus, numbers + {n}, true) == s[..j] + [cpus[k]] + s[j..]
  {
    var n := cpus[k].cpuNumber;
    OthersSame(cpus, numbers, true, k);
    KeptSplit(cpus, numbers, true, k);
    KeptSplit(cpus, numbers + {n}, true, k);
    KeptOne(cpus[k], numbers, true);
    KeptOne(cpus[k], numbers + {n}, true);
    Inserted(Kept(cpus[..k], numbers, true), cpus[k], Kept(cpus[k + 1..], numbers, true));
  }

  /** ... and the list of the others loses it. */
  lemma OtherRemoved(cpus: seq<Cpu>, numbers: set<nat>, k: nat)
    requires CpusOk(cpus) && k < |cpus| && cpus[k].cpuNumber !in numbers
    ensures var n := cpus[k].cpuNumber; var s, j := Kept(cpus, numbers, false), Place(cpus, numbers, false, k);
            j < |s| && s[j] == cpus[k] && Kept(cpus, numbers + {n}, false) == s[..j] + s[j + 1..]
  {
    var n := cpus[k].cpuNumber;
    OthersSame(cpus, numbers, false, k);
    KeptSplit(cpus, numbers, false, k);
    KeptSplit(cpus, numbers + {n}, false, k);
    KeptOne(cpus[k], numbers, false);
    KeptOne(cpus[k], numbers + {n}, false);
    Inserted(Kept(cpus[..k], numbers, false), cpus[k], Kept(cpus[k + 1..], numbers, false));
  }

  lemma Inserted(a: seq<Cpu>, c: Cpu, b: seq<Cpu>)
    ensures (a + [] + b)[..|a|] == a && (a + [] + b)[|a|..] == b
    ensures (a + [c] + b)[..|a|] == a && (a + [c] + b)[|a| + 1..] == b && a + [] + b == a + b
  {
  }

  lemma LessAsymmetric(a: Cpu, b: Cpu)
    requires Less(a, b)
    ensures !Less(b, a)
  {
  }

  ghost predicate AllLess(s: seq<Cpu>, c: Cpu) {
    forall i :: 0 <= i < |s| ==> Less(s[i], c)
  }

  ghost predicate NoneLess(s: seq<Cpu>, c: Cpu) {
    forall i :: 0 <= i < |s| ==> !Less(s[i], c)
  }

  lemma KeptBefore(cpus: seq<Cpu>, numbers: set<nat>, k: nat)
    requires CpusOk(cpus) && k < |cpus|
    ensures AllLess(Kept(cpus[..k], numbers, true), cpus[k])
  {
    var a := Kept(cpus[..k], numbers, true);
    forall i | 0 <= i < |a| ensures Less(a[i], cpus[k]) {
      KeptIn(cpus[..k], numbers, true, a[i]);
      var m :| 0 <= m < k && cpus[m] == a[i];
    }
  }

  lemma KeptAfter(cpus: seq<Cpu>, numbers: set<nat>, k: nat)
    requires CpusOk(cpus) && k < |cpus|
    ensures NoneLess(Kept(cpus[k + 1..], numbers, true), cpus[k])
  {
    var b := Kept(cpus[k + 1..], numbers, true);
    forall i | 0 <= i < |b| ensures !Less(b[i], cpus[k]) {
      KeptIn(cpus[k + 1..], numbers, true, b[i]);
      var m :| 0 <= m < |cpus[k + 1..]| && cpus[k + 1..][m] == b[i];
      LessAsymmetric(cpus[k], cpus[k + 1 + m]);
    }
  }

  /** The kept CPUs before the place come before CPU `k`, and the others after it. */
  lemma PlaceDivides(cpus: seq<Cpu>, numbers: set<nat>, k: nat)
    requires CpusOk(cpus) && k < |cpus| && cpus[k].cpuNumber !in numbers
    ensures var s, j := Kept(cpus, numbers, true), Place(cpus, numbers, true, k);
            j <= |s| && AllLess(s[..j], cpus[k]) && NoneLess(s[j..], cpus[k])
  {
    KeptSplit(cpus, numbers, true, k);
    KeptOne(cpus[k], numbers, true);
    KeptBefore(cpus, numbers, k);
    KeptAfter(cpus, numbers, k);
    Inserted(Kept(cpus[..k], numbers, true), cpus[k], Kept(cpus[k + 1..], numbers, true));
  }

  // ---------------------------------------------------------------------------------------------
  // The loop
  // ---------------------------------------------------------------------------------------------

  /** std::lower_bound: the first place whose element is not less. */
  method LowerBound(s: seq<Cpu>, c: Cpu, ghost j: nat) returns (i: nat)
    requires j <= |s| && AllLess(s[..j], c) && NoneLess(s[j..], c)
    ensures i == j
  {
    i := 0;
    var count := |s|;
    while count > 0
      invariant 0 <= i <= j <= i + count <= |s| && count >= 0
    {
      var half := count / 2;
      assert if i + half < j then Less(s[..j][i + half], c) else !Less(s[j..][i + half - j], c);
      if Less(s[i + half], c) {
        i := i + half + 1;
        count := count - half - 1;
      } else {
        count := half;
      }
    }
  }

  method FindNumber(s: seq<Cpu>, n: int) returns (i: nat)
    ensures i <= |s| && (forall k :: 0 <= k < i ==> s[k].cpuNumber != n)
    ensures i < |s| ==> s[i].cpuNumber == n
  {
    i := 0;
    while i < |s| && s[i].cpuNumber != n
      invariant i <= |s| && forall k :: 0 <= k < i ==> s[k].cpuNumber != n
    {
      i := i + 1;
    }
  }

  class Selection {
    const cpus: seq<Cpu>
    const add: bool
    const result: LogicalProcessorSet
    var newCpus: seq<Cpu>
    var totalMatches: nat

    /** The new list is the old one filtered by the numbers seen, and the matches are counted. */
    ghost predicate Valid()
      reads this, result
    {
      && CpusOk(cpus) && result.Valid()
      && newCpus == Kept(cpus, result.Contents(), add)
      && totalMatches == |result.Contents()|
      && |newCpus| == if add then totalMatches else |cpus| - totalMatches
    }

    constructor (cpus: seq<Cpu>, add: bool)
      requires CpusOk(cpus)
      ensures Valid() && fresh(result) && result.Contents() == {}
      ensures this.cpus == cpus && this.add == add
    {
      this.cpus := cpus;
      this.add := add;
      this.result := new LogicalProcessorSet();
      this.newCpus := if add then [] else cpus;
      this.totalMatches := 0;
      new;
      KeptNone(cpus);
    }

    /** CPU `k` is selected, for the first time or again. */
    method ApplyToSet(k: nat)
      requires Valid() && k < |cpus|
      modifies this, result
      ensures Valid() && result.Contents() == old(result.Contents()) + {cpus[k].cpuNumber}
    {
      var c := cpus[k];
      if result.IsSet(c.cpuNumber) {
        assert result.Contents() == result.Contents() + {c.cpuNumber};
        return;
      }
      ghost var s := result.Contents();
      if add {
        MemberAdded(cpus, s, k);
        PlaceDivides(cpus, s, k);
        var it := LowerBound(newCpus, c, Place(cpus, s, true, k));
        newCpus := newCpus[..it] + [c] + newCpus[it..];
      } else {
        OtherRemoved(cpus, s, k);
        var it := FindNumber(newCpus, c.cpuNumber);
        NumberAt(cpus, s, k, it);
        if it == |newCpus| {
          return;
        }
        newCpus := newCpus[..it] + newCpus[it + 1..];
      }
      result.Set(c.cpuNumber);
      totalMatches := totalMatches + 1;
    }

    /** Every CPU that the token selects. */
    method ApplyMatching(word: Word, s: Selector)
      requires Valid() && !s.Number? && !s.BadNumber?
      modifies this, result
      ensures Valid()
      ensures Adds(old(result.Contents()), result.Contents(), word, s, cpus, |cpus|)
    {
      for i := 0 to |cpus|
        invariant Valid() && Adds(old(result.Contents()), result.Contents(), word, s, cpus, i)
      {
        ghost var before := result.Contents();
        var hit := IsHit(word, s, cpus[i]);
        if hit {
          ApplyToSet(i);
        }
        AddsStep(old(result.Contents()), before, result.Contents(), word, s, cpus, i);
      }
    }

    method ApplyToken(word: Word, s: Selector) returns (ok: bool)
      requires Valid()
      modifies this, result
      ensures Valid() && (ok <==> !Wrong(word, s, cpus))
      ensures ok ==> Adds(old(result.Contents()), result.Contents(), word, s, cpus, |cpus|)
    {
      if s.Number? {
        var i := FindNumber(cpus, s.n);
        if i == |cpus| {
          return false;
        }
        ApplyToSet(i);
        NumberAdds(old(result.Contents()), word, s, cpus, i);
      } else if s.BadNumber? || (s.BadSearch? && word.AnyOther?) {
        return false;
      } else if !s.Other? || !word.AnyOther? {
        ApplyMatching(word, s);
      } else {
        NothingAdds(result.Contents(), word, s, cpus);
      }
      return true;
    }
  }

  /** The CPU has the wanted parity, or the ids that are asked for. */
  method IsHit(word: Word, s: Selector, c: Cpu) returns (hit: bool)
    requires !s.Number? && !s.BadNumber?
    ensures hit <==> Selects(word, s, c)
  {
    if !word.AnyOther? {
      var remainder := if word.Odd? then 1 else 0;
      return c.cpuNumber % 2 == remainder;
    }
    if !s.Search? {
      return false;
    }
    if s.package != -1 && c.packageId != s.package {
      return false;
    }
    if s.core != -1 && c.coreId != s.core {
      return false;
    }
    return s.thread == -1 || c.threadId == s.thread;
  }

  /** The numbers after a token are those before it and those of the first `k` CPUs it selects. */
  ghost predicate Adds(before: set<nat>, after: set<nat>, word: Word, s: Selector, cpus: seq<Cpu>, k: nat) {
    forall n: nat :: n in after <==> n in before || Chooses(word, s, cpus, k, n)
  }

  lemma AddsStep(start: set<nat>, before: set<nat>, after: set<nat>, word: Word, s: Selector, cpus: seq<Cpu>, i: nat)
    requires i < |cpus| && cpus[i].cpuNumber >= 0 && Adds(start, before, word, s, cpus, i)
    requires after == if Selects(word, s, cpus[i]) then before + {cpus[i].cpuNumber} else before
    ensures Adds(start, after, word, s, cpus, i + 1)
  {
    forall n: nat ensures n in after <==> n in start || Chooses(word, s, cpus, i + 1, n) {
      ChoosesStep(word, s, cpus, i, n);
    }
  }

  lemma ChoosesStep(word: Word, s: Selector, cpus: seq<Cpu>, i: nat, n: int)
    requires i < |cpus|
    ensures Chooses(word, s, cpus, i + 1, n) <==> Chooses(word, s, cpus, i, n) || (Selects(word, s, cpus[i]) && cpus[i].cpuNumber == n)
  {
  }

  lemma NumberAdds(before: set<nat>, word: Word, s: Selector, cpus: seq<Cpu>, i: nat)
    requires s.Number? && i < |cpus| && cpus[i].cpuNumber == s.n >= 0
    ensures Adds(before, before + {s.n}, word, s, cpus, |cpus|)
  {
    assert Selects(word, s, cpus[i]);
  }

  lemma NothingAdds(before: set<nat>, word: Word, s: Selector, cpus: seq<Cpu>)
    requires s.Other? && word.AnyOther?
    ensures Adds(before, before, word, s, cpus, |cpus|)
  {
  }

  lemma {:induction false} KeptNone(cpus: seq<Cpu>)
    ensures Kept(cpus, {}, true) == [] && Kept(cpus, {}, false) == cpus
    decreases |cpus|
  {
    if cpus != [] { KeptNone(cpus[..|cpus| - 1]); }
  }

  /** The number of a CPU that is still in the list is found at its place. */
  lemma NumberAt(cpus: seq<Cpu>, numbers: set<nat>, k: nat, it: nat)
    requires CpusOk(cpus) && k < |cpus| && cpus[k].cpuNumber !in numbers
    requires var s := Kept(cpus, numbers, false);
             && it <= |s| && (forall i :: 0 <= i < it ==> s[i].cpuNumber != cpus[k].cpuNumber)
             && (it < |s| ==> s[it].cpuNumber == cpus[k].cpuNumber)
    ensures it == Place(cpus, numbers, false, k)
  {
    var s, j := Kept(cpus, numbers, false), Place(cpus, numbers, false, k);
    OtherRemoved(cpus, numbers, k);
    if it < j {
      KeptSplit(cpus, numbers, false, k);
      assert s[it] == Kept(cpus[..k], numbers, false)[it];
      KeptIn(cpus[..k], numbers, false, s[it]);
    }
  }

  // ---------------------------------------------------------------------------------------------
  // The whole parameter
  // ---------------------------------------------------------------------------------------------

  /** The numbers in the set are those of the CPUs selected so far. */
  ghost predicate Tracks(numbers: set<nat>, cpus: seq<Cpu>, p: Param, k: nat) {
    && (forall i :: 0 <= i < |cpus| ==> (cpus[i].cpuNumber in numbers <==> Selected(p, k, cpus[i])))
    && (forall n :: n in numbers ==> exists i :: 0 <= i < |cpus| && cpus[i].cpuNumber == n)
  }

  lemma TracksStep(before: set<nat>, after: set<nat>, cpus: seq<Cpu>, p: Param, k: nat)
    requires CpusOk(cpus) && k < |p.tokens| && Tracks(before, cpus, p, k)
    requires Adds(before, after, p.word, p.tokens[k], cpus, |cpus|)
    ensures Tracks(after, cpus, p, k + 1)
  {
    forall i | 0 <= i < |cpus| ensures cpus[i].cpuNumber in after <==> Selected(p, k + 1, cpus[i]) {
      ChosenIsSelected(p.word, p.tokens[k], cpus, i);
      assert Selected(p, k + 1, cpus[i]) <==> Selected(p, k, cpus[i]) || Selects(p.word, p.tokens[k], cpus[i]);
    }
    forall n | n in after ensures exists i :: 0 <= i < |cpus| && cpus[i].cpuNumber == n {
      if n !in before { assert Chooses(p.word, p.tokens[k], cpus, |cpus|, n); }
    }
  }

  /** Different CPUs have different numbers, so a number is chosen only with its own CPU. */
  lemma ChosenIsSelected(word: Word, s: Selector, cpus: seq<Cpu>, i: nat)
    requires CpusOk(cpus) && i < |cpus|
    ensures Chooses(word, s, cpus, |cpus|, cpus[i].cpuNumber) <==> Selects(word, s, cpus[i])
  {
  }

  lemma {:induction false} KeptIsFiltered(cpus: seq<Cpu>, numbers: set<nat>, p: Param)
    requires forall i :: 0 <= i < |cpus| ==> (cpus[i].cpuNumber in numbers <==> Selected(p, |p.tokens|, cpus[i]))
    ensures Kept(cpus, numbers, !p.negated) == Filtered(cpus, p)
    decreases |cpus|
  {
    if cpus != [] { KeptIsFiltered(cpus[..|cpus| - 1], numbers, p); }
  }

  lemma {:induction false} KeptOk(cpus: seq<Cpu>, numbers: set<nat>, members: bool)
    requires CpusOk(cpus)
    ensures CpusOk(Kept(cpus, numbers, members))
    decreases |cpus|
  {
    if cpus != [] {
      var m := |cpus| - 1;
      KeptOk(cpus[..m], numbers, members);
      var s := Kept(cpus[..m], numbers, members);
      forall i | 0 <= i < |s| ensures Less(s[i], cpus[m]) && s[i].cpuNumber != cpus[m].cpuNumber {
        KeptIn(cpus[..m], numbers, members, s[i]);
        EarlierIsLess(cpus, s[i]);
      }
      PushOk(s, cpus[m]);
    }
  }

  lemma EarlierIsLess(cpus: seq<Cpu>, c: Cpu)
    requires CpusOk(cpus) && cpus != [] && c in cpus[..|cpus| - 1]
    ensures Less(c, cpus[|cpus| - 1]) && c.cpuNumber != cpus[|cpus| - 1].cpuNumber
  {
    var j :| 0 <= j < |cpus| - 1 && cpus[j] == c;
  }

  lemma PushOk(cpus: seq<Cpu>, c: Cpu)
    requires CpusOk(cpus) && CpuOk(c) && c.cpuNumber >= 0
    requires forall i :: 0 <= i < |cpus| ==> Less(cpus[i], c) && cpus[i].cpuNumber != c.cpuNumber
    ensures CpusOk(cpus + [c])
  {
    var all := cpus + [c];
    forall i, j | 0 <= i < j < |all| ensures Less(all[i], all[j]) && all[i].cpuNumber != all[j].cpuNumber {
      assert all[i] == cpus[i] && (j < |cpus| ==> all[j] == cpus[j]);
    }
  }

  lemma AcceptsIff(numbers: set<nat>, cpus: seq<Cpu>, p: Param)
    requires CpusOk(cpus) && Tracks(numbers, cpus, p, |p.tokens|)
    ensures numbers != {} <==> exists i :: 0 <= i < |cpus| && Selected(p, |p.tokens|, cpus[i])
    ensures p.negated ==>
              (Kept(cpus, numbers, false) != [] <==> exists i :: 0 <= i < |cpus| && !Selected(p, |p.tokens|, cpus[i]))
  {
    if numbers != {} { var n :| n in numbers; }
    var s := Kept(cpus, numbers, false);
    if s != [] {
      KeptIn(cpus, numbers, false, s[0]);
      var i :| 0 <= i < |cpus| && cpus[i] == s[0];
    }
    if i: nat :| i < |cpus| && !Selected(p, |p.tokens|, cpus[i]) { KeptIn(cpus, numbers, false, cpus[i]); }
  }

  datatype Outcome = UsageError | Updated(cpus: seq<Cpu>)

  /** All tokens, one after the other. */
  method ApplyTokens(selection: Selection, p: Param) returns (ok: bool)
    requires selection.Valid() && selection.result.Contents() == {}
    modifies selection, selection.result
    ensures selection.Valid() && (ok <==> NoneWrong(selection.cpus, p, |p.tokens|))
    ensures ok ==> Tracks(selection.result.Contents(), selection.cpus, p, |p.tokens|)
  {
    for k := 0 to |p.tokens|
      invariant selection.Valid()
      invariant Tracks(selection.result.Contents(), selection.cpus, p, k) && NoneWrong(selection.cpus, p, k)
    {
      ghost var before := selection.result.Contents();
      ok := selection.ApplyToken(p.word, p.tokens[k]);
      if !ok {
        return;
      }
      TracksStep(before, selection.result.Contents(), selection.cpus, p, k);
    }
    return true;
  }

  /** What is left and the number of matches decide whether the parameter is accepted. */
  lemma Decides(numbers: set<nat>, cpus: seq<Cpu>, p: Param)
    requires CpusOk(cpus) && Tracks(numbers, cpus, p, |p.tokens|) && NoneWrong(cpus, p, |p.tokens|)
    ensures var left := Kept(cpus, numbers, !p.negated);
            && (Accepts(cpus, p) <==> numbers != {} && !(p.negated && left == []))
            && left == Filtered(cpus, p) && CpusOk(left)
  {
    AcceptsIff(numbers, cpus, p);
    KeptIsFiltered(cpus, numbers, p);
    KeptOk(cpus, numbers, !p.negated);
  }

  /** apply_cpuset_param, up to the update. */
  method ApplyCpuset(cpus: seq<Cpu>, p: Param) returns (r: Outcome)
    requires CpusOk(cpus)
    ensures r.Updated? <==> Accepts(cpus, p)
    ensures r.Updated? ==> r.cpus == Filtered(cpus, p) && CpusOk(r.cpus)
  {
    var selection := new Selection(cpus, !p.negated);
    var ok := ApplyTokens(selection, p);
    if !ok {
      return UsageError;
    }
    Decides(selection.result.Contents(), cpus, p);
    if selection.totalMatches == 0 {
      return UsageError;
    }
    if p.negated && |selection.newCpus| == 0 {
      return UsageError;
    }
    var count := selection.result.Count();
    assert selection.totalMatches == count;
    if !p.negated {
      assert selection.totalMatches == |selection.newCpus|;
    } else {
      assert selection.totalMatches == |cpus| - |selection.newCpus|;
    }
    return Updated(selection.newCpus);
  }

  // ---------------------------------------------------------------------------------------------
  // update_topology
  // ---------------------------------------------------------------------------------------------

  const NO_CPU := Cpu(0, 0, 0, 0, 0, 0, 0)

  /** All the CPUs, or those of the given packages if some are given. */
  function OfPackages(cpus: seq<Cpu>, packages: seq<int>): seq<Cpu> {
    if cpus == [] then []
    else
      var c := cpus[|cpus| - 1];
      OfPackages(cpus[..|cpus| - 1], packages) + if packages == [] || c.packageId in packages then [c] else []
  }

  method UpdateTopology(cpuInfo: array<Cpu>, threadCount: nat, newCpus: seq<Cpu>, packages: seq<int>) returns (count: nat)
    requires |newCpus| <= threadCount <= cpuInfo.Length
    modifies cpuInfo
    ensures count <= threadCount && cpuInfo[..count] == OfPackages(newCpus, packages)
    ensures forall i :: count <= i < threadCount ==> cpuInfo[i] == NO_CPU
    ensures cpuInfo[threadCount..] == old(cpuInfo[threadCount..])
  {
    count := 0;
    for k := 0 to |newCpus|
      invariant count <= k && cpuInfo[..count] == OfPackages(newCpus[..k], packages)
      invariant cpuInfo[threadCount..] == old(cpuInfo[threadCount..])
    {
      assert newCpus[..k + 1][..k] == newCpus[..k];
      if packages == [] || newCpus[k].packageId in packages {
        cpuInfo[count] := newCpus[k];
        count := count + 1;
      }
    }
    assert newCpus[..|newCpus|] == newCpus;
    for i := count to threadCount
      invariant cpuInfo[..count] == OfPackages(newCpus, packages)
      invariant forall j :: count <= j < i ==> cpuInfo[j] == NO_CPU
      invariant cpuInfo[threadCount..] == old(cpuInfo[threadCount..])
    {
      cpuInfo[i] := NO_CPU;
    }
  }

  /** What apply_cpuset_param leaves in the array: the CPUs it keeps, and nothing behind them. */
  method RestrictCpus(cpuInfo: array<Cpu>, threadCount: nat, p: Param) returns (ok: bool, count: nat)
    requires threadCount <= cpuInfo.Length && CpusOk(cpuInfo[..threadCount])
    modifies cpuInfo
    ensures ok <==> Accepts(old(cpuInfo[..threadCount]), p)
    ensures !ok ==> cpuInfo[..] == old(cpuInfo[..]) && count == threadCount
    ensures ok ==> 0 < count <= threadCount && cpuInfo[..count] == Filtered(old(cpuInfo[..threadCount]), p)
    ensures forall i :: count <= i < threadCount ==> cpuInfo[i] == NO_CPU
    ensures cpuInfo[threadCount..] == old(cpuInfo[threadCount..])
  {
    var r := ApplyCpuset(cpuInfo[..threadCount], p);
    if r.UsageError? {
      return false, threadCount;
    }
    FilteredSize(cpuInfo[..threadCount], p);
    OfAllPackages(r.cpus);
    count := UpdateTopology(cpuInfo, threadCount, r.cpus, []);
    return true, count;
  }

  /** A parameter that is accepted leaves some CPUs, and no more than there were. */
  lemma FilteredSize(cpus: seq<Cpu>, p: Param)
    requires Accepts(cpus, p)
    ensures 0 < |Filtered(cpus, p)| <= |cpus|
  {
    var i :| 0 <= i < |cpus| && Selected(p, |p.tokens|, cpus[i]) != p.negated;
    FilteredHolds(cpus, p, i);
    FilteredShorter(cpus, p);
  }

  lemma {:induction false} FilteredHolds(cpus: seq<Cpu>, p: Param, i: nat)
    requires i < |cpus| && Selected(p, |p.tokens|, cpus[i]) != p.negated
    ensures Filtered(cpus, p) != []
    decreases |cpus|
  {
    if i < |cpus| - 1 { FilteredHolds(cpus[..|cpus| - 1], p, i); }
  }

  lemma {:induction false} FilteredShorter(cpus: seq<Cpu>, p: Param)
    ensures |Filtered(cpus, p)| <= |cpus|
    decreases |cpus|
  {
    if cpus != [] { FilteredShorter(cpus[..|cpus| - 1], p); }
  }

  lemma {:induction false} OfAllPackages(cpus: seq<Cpu>)
    ensures OfPackages(cpus, []) == cpus
    decreases |cpus|
  {
    if cpus != [] {
      var m := |cpus| - 1;
      OfAllPackages(cpus[..m]);
      assert OfPackages(cpus, []) == cpus[..m] + [cpus[m]];
    }
  }
}
