/** set_random_bits: a partial Fisher-Yates selection of bit positions. */
module RandomBits {
  import opened Bits

  const WORD_BITS := 64

  function Min(a: int, b: int): int {
    if a < b then a else b
  }

  /** The list without entry `i`: the last entry moves into its place. */
  function Removed(live: seq<nat>, i: nat): seq<nat>
    requires i < |live|
  {
    live[i := live[|live| - 1]][..|live| - 1]
  }

  /** The index that random number `r` picks among `n`. */
  function Pick(r: nat, n: nat): (i: nat)
    requires n > 0
    ensures i < n
  {
    r % n
  }

  lemma PickSmall(i: nat, n: nat)
    requires i < n
    ensures Pick(i, n) == i
  {
  }

  /** The bits drawn from `live` by the random numbers `rs`, on top of `value`. */
  function Drawn(live: seq<nat>, value: nat, rs: seq<nat>): nat
    requires |rs| <= |live|
    decreases |rs|
  {
    if |rs| == 0 then value
    else
      var i := Pick(rs[0], |live|);
      Drawn(Removed(live, i), Or(value, Pow2(live[i])), rs[1..])
  }

  /** The live positions are distinct, in range, and exactly the unset ones. */
  ghost predicate Unset(live: seq<nat>, value: nat, width: nat) {
    && (forall i, j :: 0 <= i < j < |live| ==> live[i] != live[j])
    && (forall p: nat :: p in live <==> p < width && !Bit(value, p))
    && (forall p: nat :: p >= width ==> !Bit(value, p))
  }

  /** Drawing one position sets its bit and strikes it from the list. */
  lemma DrawKeepsUnset(live: seq<nat>, value: nat, width: nat, i: nat)
    requires Unset(live, value, width) && i < |live|
    ensures Unset(Removed(live, i), Or(value, Pow2(live[i])), width)
    ensures PopCount(Or(value, Pow2(live[i]))) == PopCount(value) + 1
  {
    ghost var value', live' := Or(value, Pow2(live[i])), Removed(live, i);
    assert live[i] in live;
    PopCountSet(value, live[i]);
    forall p: nat ensures Bit(value', p) <==> Bit(value, p) || p == live[i] {
      OrBit(value, Pow2(live[i]), p);
      Pow2Bit(live[i], p);
    }
    forall p: nat ensures p in live' <==> p in live && p != live[i] {
      if p in live && p != live[i] {
        ghost var j :| 0 <= j < |live| && live[j] == p;
        assert live'[if j == |live| - 1 then i else j] == p;
      }
    }
  }

  /** Any draw adds as many bits as there are random numbers, all of them in range. */
  lemma {:induction false} DrawnCounts(live: seq<nat>, value: nat, rs: seq<nat>, width: nat)
    requires |rs| <= |live| && Unset(live, value, width)
    ensures PopCount(Drawn(live, value, rs)) == PopCount(value) + |rs|
    ensures Drawn(live, value, rs) < Pow2(width)
    decreases |rs|
  {
    if |rs| == 0 {
      BelowIfClear(value, width);
    } else {
      var i := Pick(rs[0], |live|);
      DrawKeepsUnset(live, value, width, i);
      DrawnCounts(Removed(live, i), Or(value, Pow2(live[i])), rs[1..], width);
    }
  }

  function Positions(width: nat): seq<nat> {
    seq(width, i => i)
  }

  lemma AllUnset(width: nat)
    ensures Unset(Positions(width), 0, width)
  {
    forall p: nat ensures !Bit(0, p) { ZeroHasNoBits(p); }
    forall p: nat ensures p in Positions(width) <==> p < width {
      if p < width { assert Positions(width)[p] == p; }
    }
  }

  lemma {:induction false} AllOnes(n: nat)
    ensures PopCount(Pow2(n) - 1) == n
  {
    if n > 0 {
      var half := Pow2(n - 1);
      AllOnes(n - 1);
      PopCountSplit(1, half - 1);
      assert Pow2(n) - 1 == 1 + 2 * (half - 1);
    }
  }

  lemma {:induction false} Pow2Add(a: nat, b: nat)
    ensures Pow2(a + b) == Pow2(a) * Pow2(b)
  {
    if a > 0 { Pow2Add(a - 1, b); }
  }

  lemma WordFull(width: nat)
    requires width == WORD_BITS
    ensures Pow2(width) == 0x1_0000_0000_0000_0000
  {
    var n: nat := 8;
    assert Pow2(n) == 256;
    Doubled(n, 256);
    Doubled(n + n, 0x1_0000);
    Doubled(n + n + n + n, 0x1_0000_0000);
  }

  lemma Doubled(n: nat, v: nat)
    requires Pow2(n) == v
    ensures Pow2(n + n) == v * v
  {
    Pow2Add(n, n);
  }

  lemma DrawnStep(live: seq<nat>, value: nat, rs: seq<nat>, i: nat)
    requires 0 < |rs| <= |live| && i == Pick(rs[0], |live|)
    ensures Drawn(live, value, rs) == Drawn(Removed(live, i), Or(value, Pow2(live[i])), rs[1..])
  {
  }

  /** The countdown loop, on the array that holds the live positions at its front. */
  method DrawBits(bitPositions: array<nat>, bitwidth: nat, rs: seq<nat>) returns (value: nat)
    requires |rs| <= bitwidth <= bitPositions.Length
    modifies bitPositions
    ensures value == Drawn(old(bitPositions[..bitwidth]), 0, rs)
  {
    value := 0;
    var unset := bitwidth;
    var left := |rs|;
    ghost var live, todo := bitPositions[..bitwidth], rs;
    while left > 0
      invariant 0 <= left <= unset <= bitwidth && left <= |rs|
      invariant live == bitPositions[..unset] && todo == rs[|rs| - left..]
      invariant Drawn(live, value, todo) == Drawn(old(bitPositions[..bitwidth]), 0, rs)
    {
      var idx := Pick(rs[|rs| - left], unset);
      DrawnStep(live, value, todo, idx);
      value := Or(value, Pow2(bitPositions[idx]));
      if idx < unset - 1 {
        bitPositions[idx] := bitPositions[unset - 1];
      }
      unset := unset - 1;
      left := left - 1;
      live, todo := Removed(live, idx), todo[1..];
    }
  }

  /** If not all bits are asked for, the value is what the random numbers draw. */
  predicate IsDraw(value: nat, numBits: nat, bitwidth: nat, random: seq<nat>)
    requires |random| >= numBits
  {
    numBits < bitwidth ==> value == Drawn(Positions(bitwidth), 0, random[..numBits])
  }

  /** Exactly min(numBits, bitwidth) ones, all among the low `bitwidth` bits, whatever the random
      numbers are. There is one for each bit asked for. */
  method SetRandomBits(numBits: nat, bitwidth: nat, random: seq<nat>) returns (value: nat)
    requires bitwidth <= WORD_BITS && |random| >= numBits
    ensures PopCount(value) == Min(numBits, bitwidth)
    ensures value < Pow2(bitwidth)
    ensures IsDraw(value, numBits, bitwidth, random)
  {
    AllOnes(bitwidth);
    if numBits >= WORD_BITS && bitwidth >= WORD_BITS {
      WordFull(bitwidth);
      return 0xFFFF_FFFF_FFFF_FFFF;
    } else if numBits >= bitwidth || numBits >= WORD_BITS {
      return Pow2(bitwidth) - 1;
    }

    var bitPositions := new nat[WORD_BITS];
    for i := 0 to bitwidth
      invariant bitPositions[..i] == Positions(i)
    {
      bitPositions[i] := i;
    }
    var rs := random[..numBits];
    AllUnset(bitwidth);
    DrawnCounts(Positions(bitwidth), 0, rs, bitwidth);
    value := DrawBits(bitPositions, bitwidth, rs);
  }

  // ---------------------------------------------------------------------------------------------
  // Every value can come out
  // ---------------------------------------------------------------------------------------------

  ghost predicate Within(w: nat, v: nat) {
    forall p: nat :: Bit(w, p) ==> Bit(v, p)
  }

  lemma {:induction false} WithinHalves(w: nat, v: nat)
    requires Within(w, v)
    ensures Within(w / 2, v / 2)
  {
    forall p: nat | Bit(w / 2, p) ensures Bit(v / 2, p) { assert Bit(w, p + 1); }
  }

  /** A word contained in another has no more ones, and as many only if it is the same. */
  lemma {:induction false} WithinCounts(w: nat, v: nat)
    requires Within(w, v)
    ensures PopCount(w) <= PopCount(v) && (PopCount(w) == PopCount(v) ==> w == v)
    decreases w + v
  {
    if w + v > 0 {
      assert Bit(w, 0) ==> Bit(v, 0);
      WithinHalves(w, v);
      WithinCounts(w / 2, v / 2);
    }
  }

  lemma MissingBit(value: nat, target: nat, width: nat) returns (p: nat)
    requires Within(value, target) && target < Pow2(width) && value != target
    ensures Bit(target, p) && !Bit(value, p) && p < width
  {
    if forall q: nat :: Bit(target, q) ==> Bit(value, q) { SameBits(value, target); }
    p :| Bit(target, p) && !Bit(value, p);
    if width <= p { BitsBelow(target, width, p); }
  }

  lemma SetStaysWithin(value: nat, target: nat, p: nat)
    requires Within(value, target) && Bit(target, p)
    ensures Within(Or(value, Pow2(p)), target)
  {
    forall q: nat | Bit(Or(value, Pow2(p)), q) ensures Bit(target, q) {
      OrBit(value, Pow2(p), q);
      Pow2Bit(p, q);
    }
  }

  lemma {:induction false} DrawTarget(live: seq<nat>, value: nat, width: nat, target: nat) returns (rs: seq<nat>)
    requires Unset(live, value, width) && Within(value, target) && target < Pow2(width)
    ensures |rs| == PopCount(target) - PopCount(value) && |rs| <= |live| && Drawn(live, value, rs) == target
    decreases PopCount(target) - PopCount(value)
  {
    WithinCounts(value, target);
    if value == target { return []; }
    var p := MissingBit(value, target, width);
    assert p in live;
    var i :| 0 <= i < |live| && live[i] == p;
    DrawKeepsUnset(live, value, width, i);
    SetStaysWithin(value, target, p);
    var rest := DrawTarget(Removed(live, i), Or(value, Pow2(p)), width, target);
    rs := [i] + rest;
    PickSmall(i, |live|);
    assert rs[0] == i && rs[1..] == rest;
  }

  /** Some random numbers lead to any given value with the right number of ones. */
  lemma EveryValuePossible(target: nat, bitwidth: nat) returns (rs: seq<nat>)
    requires target < Pow2(bitwidth)
    ensures |rs| == PopCount(target) <= bitwidth && Drawn(Positions(bitwidth), 0, rs) == target
  {
    AllUnset(bitwidth);
    assert Within(0, target) by {
      forall p: nat ensures !Bit(0, p) { ZeroHasNoBits(p); }
    }
    rs := DrawTarget(Positions(bitwidth), 0, bitwidth, target);
  }
}
