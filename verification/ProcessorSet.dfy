/** LogicalProcessorSet: a growing array of 64-bit words that stands for a finite set of logical
    processor numbers. */
module ProcessorSet {
  import opened Bits
  import opened FiniteSets

  const PER_WORD := 64
  const MIN_WORDS := 16  // MinSize / ProcessorsPerWord

  function Min(a: nat, b: nat): nat {
    if a < b then a else b
  }

  function One(b: bool): nat {
    if b then 1 else 0
  }

  // ---------------------------------------------------------------------------------------------
  // Words as a set
  // ---------------------------------------------------------------------------------------------

  ghost predicate WordsOk(words: seq<nat>) {
    forall k :: 0 <= k < |words| ==> Fits(words[k], PER_WORD)
  }

  predicate Has(words: seq<nat>, n: nat) {
    n / PER_WORD < |words| && Bit(words[n / PER_WORD], n % PER_WORD)
  }

  ghost function Below(words: seq<nat>, limit: nat): set<nat> {
    set n: nat | n < limit && Has(words, n)
  }

  ghost function Members(words: seq<nat>): set<nat> {
    Below(words, PER_WORD * |words|)
  }

  lemma MembersAre(words: seq<nat>, n: nat)
    ensures n in Members(words) <==> Has(words, n)
  {
  }

  /** Population count of the low `j` bits. */
  ghost function LowCount(w: nat, j: nat): nat {
    if j == 0 then 0 else LowCount(w, j - 1) + One(Bit(w, j - 1))
  }

  lemma {:induction false} LowCountHalves(w: nat, j: nat)
    ensures LowCount(w, j + 1) == w % 2 + LowCount(w / 2, j)
  {
    if j > 0 { LowCountHalves(w, j - 1); }
  }

  lemma {:induction false} LowCountIsPopCount(w: nat, n: nat)
    requires Fits(w, n)
    ensures LowCount(w, n) == PopCount(w)
  {
    if n == 0 {
      BelowIfClear(w, 0);
    } else {
      LowCountHalves(w, n - 1);
      FitsHalf(w, n);
      LowCountIsPopCount(w / 2, n - 1);
    }
  }

  lemma BelowNext(words: seq<nat>, n: nat)
    ensures |Below(words, n + 1)| == |Below(words, n)| + One(Has(words, n))
  {
    if Has(words, n) {
      assert Below(words, n + 1) == Below(words, n) + {n};
    } else {
      assert Below(words, n + 1) == Below(words, n);
    }
  }

  lemma {:induction false} BelowInWord(words: seq<nat>, k: nat, j: nat)
    requires k < |words| && j <= PER_WORD
    ensures |Below(words, PER_WORD * k + j)| == |Below(words, PER_WORD * k)| + LowCount(words[k], j)
    decreases j
  {
    if j > 0 {
      BelowInWord(words, k, j - 1);
      BelowNext(words, PER_WORD * k + (j - 1));
    }
  }

  /** One more word adds its population count. */
  lemma WordAdds(words: seq<nat>, k: nat)
    requires WordsOk(words) && k < |words|
    ensures |Below(words, PER_WORD * (k + 1))| == |Below(words, PER_WORD * k)| + PopCount(words[k])
  {
    BelowInWord(words, k, PER_WORD);
    LowCountIsPopCount(words[k], PER_WORD);
  }

  /** Storing a word changes exactly the members it holds. */
  lemma StoreWord(words: seq<nat>, k: nat, w: nat, n: nat)
    requires k < |words|
    ensures Has(words[k := w], n) <==> if n / PER_WORD == k then Bit(w, n % PER_WORD) else Has(words, n)
  {
  }

  /** Appended zero words hold nothing. */
  lemma ZerosAddNothing(words: seq<nat>, extra: nat)
    ensures Members(words + seq(extra, _ => 0)) == Members(words)
  {
    ghost var longer := words + seq(extra, _ => 0);
    forall n: nat ensures Has(longer, n) <==> Has(words, n) {
      if |words| <= n / PER_WORD < |longer| { ZeroHasNoBits(n % PER_WORD); }
    }
    assert forall n: nat :: n in Members(longer) <==> n in Members(words);
  }

  // ---------------------------------------------------------------------------------------------
  // Limiting
  // ---------------------------------------------------------------------------------------------

  /** `w'` is `w` without its bits from `cut` on. */
  ghost predicate CutAt(w: nat, w': nat, cut: nat) {
    forall i: nat :: Bit(w', i) <==> Bit(w, i) && i < cut
  }

  lemma {:induction false} PopCountZero(w: nat)
    ensures PopCount(w) == 0 <==> w == 0
  {
    if w > 0 { PopCountZero(w / 2); }
  }

  /** Clears the `k` highest bits, one bit_floor at a time. */
  method ClearTop(w: nat, k: nat) returns (r: nat, ghost cut: nat)
    requires Fits(w, PER_WORD) && k <= PopCount(w)
    ensures PopCount(r) == PopCount(w) - k && Fits(r, PER_WORD)
    ensures cut <= PER_WORD && CutAt(w, r, cut)
  {
    r, cut := w, PER_WORD;
    var limit: int := 0 - k;
    while limit < 0
      invariant 0 - k <= limit <= 0 && PopCount(r) == PopCount(w) - k - limit
      invariant cut <= PER_WORD && CutAt(w, r, cut)
    {
      PopCountZero(r);
      ghost var top := HasTopBit(r);
      PopCountClear(r, top);
      var bit := BitFloor(r);
      ghost var before := r;
      r := AndNot(r, bit);
      forall i: nat ensures Bit(r, i) <==> Bit(before, i) && i != top {
        AndNotBit(before, Pow2(top), i);
        Pow2Bit(top, i);
      }
      cut := top;
      limit := limit + 1;
    }
  }

  /** `small` holds the `k` smallest elements of `all`, or all of them if there are fewer. */
  ghost predicate Smallest(small: set<nat>, all: set<nat>, k: nat) {
    && small <= all && |small| == Min(k, |all|)
    && forall x, y :: x in small && y in all && y !in small ==> x < y
  }

  // ---------------------------------------------------------------------------------------------
  // The class
  // ---------------------------------------------------------------------------------------------

  class LogicalProcessorSet {
    var words: seq<nat>

    ghost predicate Valid()
      reads this
    {
      WordsOk(words)
    }

    ghost function Contents(): set<nat>
      reads this
    {
      Members(words)
    }

    constructor ()
      ensures Valid() && Contents() == {}
    {
      words := [];
    }

    method EnsureSize(n: nat)
      requires Valid()
      modifies this
      ensures Valid() && Contents() == old(Contents())
      ensures |old(words)| <= |words| && n / PER_WORD < |words|
    {
      var idx := n / PER_WORD;
      if idx >= |words| {
        var size := if idx + 1 < MIN_WORDS then MIN_WORDS else idx + 1;
        ZerosAddNothing(words, size - |words|);
        ZeroFits(PER_WORD);
        words := words + seq(size - |words|, _ => 0);
      }
    }

    method Set(n: nat)
      requires Valid()
      modifies this
      ensures Valid() && Contents() == old(Contents()) + {n}
    {
      EnsureSize(n);
      var k := n / PER_WORD;
      var w := Or(words[k], Pow2(n % PER_WORD));
      ghost var before := words;
      WordStaysSmall(words[k], n % PER_WORD);
      words := words[k := w];
      forall m: nat ensures Has(words, m) <==> Has(before, m) || m == n {
        StoreWord(before, k, w, m);
        OrBit(before[k], Pow2(n % PER_WORD), m % PER_WORD);
        Pow2Bit(n % PER_WORD, m % PER_WORD);
      }
      assert forall m: nat :: m in Members(words) <==> m in Members(before) + {n};
    }

    method Unset(n: nat)
      requires Valid()
      modifies this
      ensures Valid() && Contents() == old(Contents()) - {n}
    {
      EnsureSize(n);
      var k := n / PER_WORD;
      var w := AndNot(words[k], Pow2(n % PER_WORD));
      ghost var before := words;
      WordStaysSmall(words[k], n % PER_WORD);
      words := words[k := w];
      forall m: nat ensures Has(words, m) <==> Has(before, m) && m != n {
        StoreWord(before, k, w, m);
        AndNotBit(before[k], Pow2(n % PER_WORD), m % PER_WORD);
        Pow2Bit(n % PER_WORD, m % PER_WORD);
      }
      assert forall m: nat :: m in Members(words) <==> m in Members(before) - {n};
    }

    /** A number beyond the array is not set, and asking does not grow the array. */
    function IsSet(n: nat): (r: bool)
      reads this
      ensures r <==> n in Contents()
    {
      MembersAre(words, n);
      Has(words, n)
    }

    method Count() returns (total: nat)
      requires Valid()
      ensures total == |Contents()|
    {
      total := 0;
      assert Below(words, 0) == {};
      for k := 0 to |words|
        invariant total == |Below(words, PER_WORD * k)|
      {
        WordAdds(words, k);
        total := total + PopCount(words[k]);
      }
    }

    method Empty() returns (r: bool)
      requires Valid()
      ensures r <==> Contents() == {}
    {
      assert Below(words, 0) == {};
      for k := 0 to |words|
        invariant Below(words, PER_WORD * k) == {}
      {
        WordAdds(words, k);
        PopCountZero(words[k]);
        if words[k] != 0 {
          assert Below(words, PER_WORD * (k + 1)) <= Contents();
          return false;
        }
      }
      return true;
    }

    /** Skips words until `limit` members have been passed; `left` is what is still wanted. */
    method SkipWords(limit: nat) returns (it: nat, left: int)
      requires Valid()
      ensures it <= |words| && left == limit - |Below(words, PER_WORD * it)|
      ensures left > 0 ==> it == |words|
      ensures left < 0 ==> it > 0 && left + PopCount(words[it - 1]) > 0
    {
      it, left := 0, limit;
      assert Below(words, 0) == {};
      while it < |words| && left > 0
        invariant it <= |words| && left == limit - |Below(words, PER_WORD * it)|
        invariant left < 0 ==> it > 0 && left + PopCount(words[it - 1]) > 0
      {
        WordAdds(words, it);
        left := left - PopCount(words[it]);
        it := it + 1;
      }
    }

    /** Leaves exactly the `limit` smallest members. */
    method LimitTo(limit: nat)
      requires Valid()
      modifies this
      ensures Valid() && |words| == |old(words)|
      ensures Smallest(Contents(), old(Contents()), limit)
    {
      var it, left := SkipWords(limit);
      ghost var all, c := words, 0;
      if left < 0 {
        var x;
        x, c := ClearTop(words[it - 1], -left);
        words := words[it - 1 := x];
      }
      ghost var cleared := words;
      FillFrom(it);
      if left < 0 { LimitInsideWord(all, it - 1, cleared[it - 1], c, limit); }
      else { LimitAtWord(all, it, limit); }
    }

    /** Clears the words from `it` to the end. */
    method FillFrom(it: nat)
      requires Valid() && it <= |words|
      modifies this
      ensures Valid() && words == Filled(old(words), it)
    {
      ZeroFits(PER_WORD);
      if it != |words| {
        words := words[..it] + seq(|words| - it, _ => 0);
      }
    }
  }

  /** `words` cut off at word `it`. */
  ghost function Filled(words: seq<nat>, it: nat): seq<nat>
    requires it <= |words|
  {
    words[..it] + seq(|words| - it, _ => 0)
  }

  lemma LimitAtWord(all: seq<nat>, it: nat, limit: nat)
    requires it <= |all|
    requires |Below(all, PER_WORD * it)| == limit || (|Below(all, PER_WORD * it)| <= limit && it == |all|)
    ensures Smallest(Members(Filled(all, it)), Members(all), limit)
  {
    FillClears(all, it);
    KeptAreSmallest(all, Filled(all, it), PER_WORD * it, limit);
  }

  lemma LimitInsideWord(all: seq<nat>, k: nat, x: nat, c: nat, limit: nat)
    requires WordsOk(all) && k < |all| && Fits(x, PER_WORD) && c <= PER_WORD && CutAt(all[k], x, c)
    requires PopCount(x) == PopCount(all[k]) - (|Below(all, PER_WORD * (k + 1))| - limit)
    ensures Smallest(Members(Filled(all[k := x], k + 1)), Members(all), limit)
  {
    WordAdds(all, k);
    CutWord(all, k, x, c);
    FillClears(all[k := x], k + 1);
    KeptAreSmallest(all, Filled(all[k := x], k + 1), PER_WORD * k + c, limit);
  }

  /** Cutting the word at `k` cuts the set, up to the end of that word. */
  lemma CutWord(all: seq<nat>, k: nat, x: nat, c: nat)
    requires k < |all| && Fits(x, PER_WORD) && c <= PER_WORD && CutAt(all[k], x, c)
    ensures forall n: nat :: n < PER_WORD * (k + 1) ==> (Has(all[k := x], n) <==> Has(all, n) && n < PER_WORD * k + c)
    ensures |Below(all, PER_WORD * k + c)| == |Below(all, PER_WORD * k)| + PopCount(x)
  {
    CutCounts(all[k], x, c);
    BelowInWord(all, k, c);
    forall n: nat | n < PER_WORD * (k + 1) ensures Has(all[k := x], n) <==> Has(all, n) && n < PER_WORD * k + c {
      StoreWord(all, k, x, n);
    }
  }

  /** Zeroing the words from `it` on drops exactly the members from there on. */
  lemma FillClears(words: seq<nat>, it: nat)
    requires it <= |words|
    ensures forall n: nat :: Has(Filled(words, it), n) <==> Has(words, n) && n < PER_WORD * it
  {
    forall n: nat ensures Has(Filled(words, it), n) <==> Has(words, n) && n < PER_WORD * it {
      if it <= n / PER_WORD < |words| { ZeroHasNoBits(n % PER_WORD); }
    }
  }

  lemma KeptAreSmallest(all: seq<nat>, kept: seq<nat>, cut: nat, limit: nat)
    requires |kept| == |all| && cut <= PER_WORD * |all|
    requires forall n: nat :: Has(kept, n) <==> Has(all, n) && n < cut
    requires |Below(all, cut)| == limit || (|Below(all, cut)| <= limit && cut == PER_WORD * |all|)
    ensures Smallest(Members(kept), Members(all), limit)
  {
    assert Members(kept) == Below(all, cut);
    SubsetSize(Below(all, cut), Members(all));
  }

  lemma {:induction false} CutCountsLow(w: nat, x: nat, cut: nat, j: nat)
    requires CutAt(w, x, cut)
    ensures LowCount(x, j) == LowCount(w, Min(j, cut))
  {
    if j > 0 { CutCountsLow(w, x, cut, j - 1); }
  }

  lemma CutCounts(w: nat, x: nat, cut: nat)
    requires CutAt(w, x, cut) && cut <= PER_WORD && Fits(x, PER_WORD)
    ensures PopCount(x) == LowCount(w, cut)
  {
    CutCountsLow(w, x, cut, PER_WORD);
    LowCountIsPopCount(x, PER_WORD);
  }

  lemma WordStaysSmall(w: nat, n: nat)
    requires Fits(w, PER_WORD) && n < PER_WORD
    ensures Fits(Or(w, Pow2(n)), PER_WORD) && Fits(AndNot(w, Pow2(n)), PER_WORD)
  {
    forall i: nat | PER_WORD <= i ensures !Bit(Or(w, Pow2(n)), i) && !Bit(AndNot(w, Pow2(n)), i) {
      OrBit(w, Pow2(n), i);
      AndNotBit(w, Pow2(n), i);
      Pow2Bit(n, i);
    }
  }
}
