/** Unsigned machine words as naturals, with the bit operations the sources use. */
module Bits {

  function Pow2(n: nat): (r: nat)
    ensures r > 0
  {
    if n == 0 then 1 else 2 * Pow2(n - 1)
  }

  /** Bit `i` of `w`. */
  predicate Bit(w: nat, i: nat) {
    if i == 0 then w % 2 == 1 else Bit(w / 2, i - 1)
  }

  /** w | v */
  function Or(w: nat, v: nat): nat {
    if w == 0 && v == 0 then 0
    else (if w % 2 == 1 || v % 2 == 1 then 1 else 0) + 2 * Or(w / 2, v / 2)
  }

  /** w & ~v */
  function AndNot(w: nat, v: nat): nat {
    if w == 0 then 0
    else (if w % 2 == 1 && v % 2 == 0 then 1 else 0) + 2 * AndNot(w / 2, v / 2)
  }

  function PopCount(w: nat): nat {
    if w == 0 then 0 else w % 2 + PopCount(w / 2)
  }

  /** The highest power of two in `w`, or 0 (std::bit_floor). */
  function BitFloor(w: nat): nat {
    if w == 0 then 0 else if w == 1 then 1 else 2 * BitFloor(w / 2)
  }

  lemma {:induction false} ZeroHasNoBits(i: nat)
    ensures !Bit(0, i)
  {
    if i > 0 { ZeroHasNoBits(i - 1); }
  }

  lemma {:induction false} OrBit(w: nat, v: nat, i: nat)
    ensures Bit(Or(w, v), i) <==> Bit(w, i) || Bit(v, i)
    decreases i
  {
    if w == 0 && v == 0 { ZeroHasNoBits(i); }
    else if i > 0 { OrBit(w / 2, v / 2, i - 1); }
  }

  lemma {:induction false} AndNotBit(w: nat, v: nat, i: nat)
    ensures Bit(AndNot(w, v), i) <==> Bit(w, i) && !Bit(v, i)
    decreases i
  {
    if w == 0 { ZeroHasNoBits(i); }
    else if i > 0 { AndNotBit(w / 2, v / 2, i - 1); }
  }

  lemma {:induction false} Pow2Bit(n: nat, i: nat)
    ensures Bit(Pow2(n), i) <==> i == n
    decreases n
  {
    if n == 0 { if i > 0 { ZeroHasNoBits(i - 1); } }
    else if i > 0 { Pow2Bit(n - 1, i - 1); }
  }

  /** `w` is an `n`-bit word: it has no bit at or above `n`. */
  ghost predicate Fits(w: nat, n: nat) {
    forall i: nat :: n <= i ==> !Bit(w, i)
  }

  lemma ZeroFits(n: nat)
    ensures Fits(0, n)
  {
    forall i: nat ensures !Bit(0, i) { ZeroHasNoBits(i); }
  }

  lemma {:induction false} BitsBelow(w: nat, n: nat, i: nat)
    requires w < Pow2(n) && n <= i
    ensures !Bit(w, i)
    decreases n
  {
    if n == 0 { ZeroHasNoBits(i); }
    else { BitsBelow(w / 2, n - 1, i - 1); }
  }

  lemma {:induction false} BelowIfClear(w: nat, n: nat)
    requires Fits(w, n)
    ensures w < Pow2(n)
    decreases w
  {
    if w > 0 {
      if n == 0 {
        var top := HasTopBit(w);
      } else {
        FitsHalf(w, n);
        BelowIfClear(w / 2, n - 1);
      }
    }
  }

  lemma FitsHalf(w: nat, n: nat)
    requires Fits(w, n) && n > 0
    ensures Fits(w / 2, n - 1)
  {
    forall i: nat | n - 1 <= i ensures !Bit(w / 2, i) { assert !Bit(w, i + 1); }
  }

  /** A non-zero word has a highest bit, which is what bit_floor returns. */
  lemma {:induction false} HasTopBit(w: nat) returns (n: nat)
    requires w > 0
    ensures BitFloor(w) == Pow2(n) && Bit(w, n)
    ensures forall i: nat :: n < i ==> !Bit(w, i)
  {
    if w == 1 {
      n := 0;
      forall i: nat | 0 < i ensures !Bit(w, i) { ZeroHasNoBits(i - 1); }
    } else {
      var k := HasTopBit(w / 2);
      n := k + 1;
    }
  }

  /** Clearing a set bit takes one off the population count. */
  lemma {:induction false} PopCountClear(w: nat, n: nat)
    requires Bit(w, n)
    ensures PopCount(AndNot(w, Pow2(n))) == PopCount(w) - 1
    decreases n
  {
    if w == 0 {
      ZeroHasNoBits(n);
    } else if n == 0 {
      AndNotZero(w / 2);
      assert AndNot(w, 1) == 2 * (w / 2);
      PopCountSplit(0, w / 2);
    } else {
      PopCountClear(w / 2, n - 1);
      Pow2Half(n);
      assert AndNot(w, Pow2(n)) == w % 2 + 2 * AndNot(w / 2, Pow2(n - 1));
      PopCountSplit(w % 2, AndNot(w / 2, Pow2(n - 1)));
    }
  }

  lemma Pow2Half(n: nat)
    requires n > 0
    ensures Pow2(n) / 2 == Pow2(n - 1) && Pow2(n) % 2 == 0
  {
  }

  lemma {:induction false} AndNotZero(w: nat)
    ensures AndNot(w, 0) == w
  {
    if w > 0 { AndNotZero(w / 2); }
  }

  /** Setting a clear bit adds one to the population count. */
  lemma {:induction false} PopCountSet(w: nat, n: nat)
    requires !Bit(w, n)
    ensures PopCount(Or(w, Pow2(n))) == PopCount(w) + 1
    decreases n
  {
    if n == 0 {
      OrZero(w / 2);
      PopCountSplit(1, w / 2);
    } else {
      PopCountSet(w / 2, n - 1);
      Pow2Half(n);
      PopCountSplit(w % 2, Or(w / 2, Pow2(n - 1)));
    }
  }

  lemma PopCountSplit(b: nat, half: nat)
    requires b < 2
    ensures PopCount(b + 2 * half) == b + PopCount(half)
  {
    assert (b + 2 * half) / 2 == half && (b + 2 * half) % 2 == b;
  }

  lemma {:induction false} OrZero(w: nat)
    ensures Or(w, 0) == w
  {
    if w > 0 { OrZero(w / 2); }
  }

  /** Words with the same bits are equal. */
  lemma {:induction false} SameBits(w: nat, v: nat)
    requires forall i: nat :: Bit(w, i) == Bit(v, i)
    ensures w == v
    decreases w + v
  {
    if w + v > 0 {
      forall i: nat ensures Bit(w / 2, i) == Bit(v / 2, i) { assert Bit(w, i + 1) == Bit(v, i + 1); }
      assert Bit(w, 0) == Bit(v, 0);
      SameBits(w / 2, v / 2);
    }
  }
}
