/** Contiguous ranges of internal CPU numbers, and lists of them that cut up an interval. */
module Ranges {

  datatype Range = Range(start: nat, count: nat) {
    const end: nat := start + count

    predicate Holds(x: int) {
      start <= x < start + count
    }
  }

  /** Non-empty ranges, in order and without gaps, from `lo` to `hi`. */
  ghost predicate Tiles(rs: seq<Range>, lo: nat, hi: nat) {
    if rs == [] then lo == hi
    else
      && rs[0].start == lo && rs[|rs| - 1].end == hi
      && (forall i :: 0 <= i < |rs| ==> rs[i].count > 0)
      && (forall i :: 0 < i < |rs| ==> Joined(rs, i))
  }

  /** Range `i` starts where the one before it ends. */
  predicate Joined(rs: seq<Range>, i: nat)
    requires 0 < i < |rs|
  {
    rs[i].start == rs[i - 1].end
  }

  lemma TilesPush(rs: seq<Range>, lo: nat, mid: nat, r: Range)
    requires Tiles(rs, lo, mid) && r.start == mid && r.count > 0
    ensures Tiles(rs + [r], lo, r.end)
  {
    var t := rs + [r];
    forall i | 0 < i < |t| ensures Joined(t, i) {
      if i < |rs| { assert Joined(rs, i); }
    }
  }

  lemma TilesPrepend(r: Range, rs: seq<Range>, hi: nat)
    requires r.count > 0 && Tiles(rs, r.end, hi)
    ensures Tiles([r] + rs, r.start, hi)
  {
    var t := [r] + rs;
    forall i | 0 < i < |t| ensures Joined(t, i) {
      if i > 1 { assert Joined(rs, i - 1); }
    }
  }

  lemma TilesConcat(a: seq<Range>, b: seq<Range>, lo: nat, mid: nat, hi: nat)
    requires Tiles(a, lo, mid) && Tiles(b, mid, hi)
    ensures Tiles(a + b, lo, hi)
  {
    var t := a + b;
    if a == [] {
      assert t == b;
    } else if b == [] {
      assert t == a;
    } else {
      forall i | 0 < i < |t| ensures Joined(t, i) {
        if i < |a| { assert Joined(a, i); } else if i > |a| { assert Joined(b, i - |a|); }
      }
    }
  }

  /** Earlier ranges end before later ones start. */
  lemma {:induction false} TilesOrdered(rs: seq<Range>, lo: nat, hi: nat, i: nat, j: nat)
    requires Tiles(rs, lo, hi) && i < j < |rs|
    ensures rs[i].end <= rs[j].start
    decreases j
  {
    assert Joined(rs, j);
    if i + 1 < j { TilesOrdered(rs, lo, hi, i, j - 1); }
  }

  lemma TilesInside(rs: seq<Range>, lo: nat, hi: nat, i: nat)
    requires Tiles(rs, lo, hi) && i < |rs|
    ensures lo <= rs[i].start && rs[i].end <= hi
  {
    if 0 < i { TilesOrdered(rs, lo, hi, 0, i); }
    if i < |rs| - 1 { TilesOrdered(rs, lo, hi, i, |rs| - 1); }
  }

  /** Every number of the interval is in one range and no more. */
  lemma {:induction false} TilesCover(rs: seq<Range>, lo: nat, hi: nat, x: nat) returns (i: nat)
    requires Tiles(rs, lo, hi) && lo <= x < hi
    ensures i < |rs| && rs[i].Holds(x)
    ensures forall j :: 0 <= j < |rs| && rs[j].Holds(x) ==> j == i
  {
    i := 0;
    while rs[i].end <= x
      invariant i < |rs| && rs[i].start <= x
      decreases |rs| - i
    {
      if i + 1 < |rs| { assert Joined(rs, i + 1); }
      i := i + 1;
    }
    forall j | 0 <= j < |rs| && rs[j].Holds(x) ensures j == i {
      if j < i { TilesOrdered(rs, lo, hi, j, i); } else if i < j { TilesOrdered(rs, lo, hi, i, j); }
    }
  }

  // ---------------------------------------------------------------------------------------------
  // Lists of lists
  // ---------------------------------------------------------------------------------------------

  /** The lists one after another. */
  function Flat(ss: seq<seq<Range>>): seq<Range> {
    if ss == [] then [] else Flat(ss[..|ss| - 1]) + ss[|ss| - 1]
  }

  lemma FlatPush(ss: seq<seq<Range>>, s: seq<Range>)
    ensures Flat(ss + [s]) == Flat(ss) + s
  {
    assert (ss + [s])[..|ss|] == ss;
  }

  lemma InConcat(a: seq<Range>, b: seq<Range>, r: Range)
    ensures r in a + b <==> r in a || r in b
  {
  }

  lemma {:induction false} InFlat(ss: seq<seq<Range>>, r: Range)
    ensures r in Flat(ss) <==> exists i :: 0 <= i < |ss| && r in ss[i]
    decreases |ss|
  {
    if ss != [] {
      var before, last := ss[..|ss| - 1], ss[|ss| - 1];
      InFlat(before, r);
      InConcat(Flat(before), last, r);
      if i :| 0 <= i < |ss| && r in ss[i] { assert i < |before| ==> before[i] == ss[i]; }
    }
  }

  lemma {:induction false} FlatNoShorter(ss: seq<seq<Range>>)
    requires forall i :: 0 <= i < |ss| ==> ss[i] != []
    ensures |Flat(ss)| >= |ss|
    decreases |ss|
  {
    if ss != [] { FlatNoShorter(ss[..|ss| - 1]); }
  }

  /** Each range in a list of its own. */
  function Singles(rs: seq<Range>): seq<seq<Range>> {
    seq(|rs|, i requires 0 <= i < |rs| => [rs[i]])
  }

  lemma {:induction false} FlatSingles(rs: seq<Range>)
    ensures Flat(Singles(rs)) == rs
    decreases |rs|
  {
    if rs != [] {
      var before, last := rs[..|rs| - 1], rs[|rs| - 1];
      FlatSingles(before);
      FlatPush(Singles(before), [last]);
      assert Singles(rs) == Singles(before) + [[last]];
      assert rs == before + [last];
    }
  }

  /** List `i` cuts up the interval between bounds `i` and `i + 1`. */
  ghost predicate TilesPart(ss: seq<seq<Range>>, bounds: seq<nat>, i: nat)
    requires i < |ss| < |bounds|
  {
    Tiles(ss[i], bounds[i], bounds[i + 1])
  }

  lemma TilesPartIs(ss: seq<seq<Range>>, bounds: seq<nat>, i: nat, s: seq<Range>, lo: nat, hi: nat)
    requires i < |ss| < |bounds| && ss[i] == s && bounds[i] == lo && bounds[i + 1] == hi && Tiles(s, lo, hi)
    ensures TilesPart(ss, bounds, i)
  {
  }

  ghost predicate TilesParts(ss: seq<seq<Range>>, bounds: seq<nat>) {
    |bounds| == |ss| + 1 && forall i :: 0 <= i < |ss| ==> TilesPart(ss, bounds, i)
  }

  lemma PartsPrefix(ss: seq<seq<Range>>, bounds: seq<nat>)
    requires TilesParts(ss, bounds) && ss != []
    ensures TilesParts(ss[..|ss| - 1], bounds[..|ss|])
  {
    var before, less := ss[..|ss| - 1], bounds[..|ss|];
    forall i | 0 <= i < |before| ensures TilesPart(before, less, i) {
      assert TilesPart(ss, bounds, i) && before[i] == ss[i] && less[i] == bounds[i] && less[i + 1] == bounds[i + 1];
    }
  }

  lemma {:induction false} FlatTiles(ss: seq<seq<Range>>, bounds: seq<nat>)
    requires TilesParts(ss, bounds)
    ensures Tiles(Flat(ss), bounds[0], bounds[|ss|])
    decreases |ss|
  {
    if ss != [] {
      var m := |ss| - 1;
      PartsPrefix(ss, bounds);
      FlatTiles(ss[..m], bounds[..|ss|]);
      assert TilesPart(ss, bounds, m);
      TilesConcat(Flat(ss[..m]), ss[m], bounds[0], bounds[m], bounds[m + 1]);
    }
  }

  /** What cuts up the interval below `mid` ends where the other does. */
  lemma SameSplit(a: seq<Range>, b: seq<Range>, c: seq<Range>, d: seq<Range>, lo: nat, mid: nat, hi: nat)
    requires Tiles(a, lo, mid) && Tiles(b, mid, hi) && Tiles(c, lo, mid) && Tiles(d, mid, hi) && a + b == c + d
    ensures a == c && b == d
  {
    NotFewer(a, b, c, d, lo, mid, hi);
    NotFewer(c, d, a, b, lo, mid, hi);
    assert a == (a + b)[..|a|] && c == (c + d)[..|c|] && b == (a + b)[|a|..] && d == (c + d)[|c|..];
  }

  lemma NotFewer(a: seq<Range>, b: seq<Range>, c: seq<Range>, d: seq<Range>, lo: nat, mid: nat, hi: nat)
    requires Tiles(a, lo, mid) && Tiles(b, mid, hi) && Tiles(c, lo, mid) && Tiles(d, mid, hi) && a + b == c + d
    ensures |a| >= |c|
  {
    forall i | 0 <= i < |c| ensures (c + d)[i].start < mid { TilesInside(c, lo, mid, i); }
    assert b != [] ==> (a + b)[|a|].start == mid;
  }

  /** Lists that cut up the same intervals are the same when they make the same list. */
  lemma {:induction false} FlatInjective(ss: seq<seq<Range>>, tt: seq<seq<Range>>, bounds: seq<nat>)
    requires TilesParts(ss, bounds) && TilesParts(tt, bounds) && Flat(ss) == Flat(tt)
    ensures ss == tt
    decreases |ss|
  {
    if ss != [] {
      var m := |ss| - 1;
      PartsPrefix(ss, bounds);
      PartsPrefix(tt, bounds);
      FlatTiles(ss[..m], bounds[..|ss|]);
      FlatTiles(tt[..m], bounds[..|ss|]);
      assert TilesPart(ss, bounds, m) && TilesPart(tt, bounds, m);
      SameSplit(Flat(ss[..m]), ss[m], Flat(tt[..m]), tt[m], bounds[0], bounds[m], bounds[m + 1]);
      FlatInjective(ss[..m], tt[..m], bounds[..|ss|]);
      assert ss == ss[..m] + [ss[m]] && tt == tt[..m] + [tt[m]];
    }
  }

  // ---------------------------------------------------------------------------------------------
  // Refinement
  // ---------------------------------------------------------------------------------------------

  /** Every range of `fine` lies inside one range of `coarse`. */
  ghost predicate Refines(fine: seq<Range>, coarse: seq<Range>) {
    forall i :: 0 <= i < |fine| ==> InsideOne(fine[i], coarse)
  }

  ghost predicate InsideOne(r: Range, coarse: seq<Range>) {
    exists j :: 0 <= j < |coarse| && coarse[j].start <= r.start && r.end <= coarse[j].end
  }

  lemma RefinesSelf(rs: seq<Range>)
    ensures Refines(rs, rs)
  {
    forall i | 0 <= i < |rs| ensures InsideOne(rs[i], rs) { assert rs[i].end <= rs[i].end; }
  }

  lemma RefinesPush(fine: seq<Range>, more: seq<Range>, coarse: seq<Range>, r: Range)
    requires Refines(fine, coarse) && forall i :: 0 <= i < |more| ==> r.start <= more[i].start && more[i].end <= r.end
    ensures Refines(fine + more, coarse + [r])
  {
    forall i | 0 <= i < |fine + more| ensures InsideOne((fine + more)[i], coarse + [r]) {
      if i < |fine| {
        var j :| 0 <= j < |coarse| && coarse[j].start <= fine[i].start && fine[i].end <= coarse[j].end;
        assert (coarse + [r])[j] == coarse[j];
      } else {
        assert (coarse + [r])[|coarse|] == r;
      }
    }
  }

  /** A refinement of the same interval has at least as many ranges: each coarse range contains the
      fine range that holds its first number, and those are all different. */
  lemma {:induction false} RefinementNoShorter(fine: seq<Range>, coarse: seq<Range>, lo: nat, hi: nat)
    requires Tiles(fine, lo, hi) && Tiles(coarse, lo, hi) && Refines(fine, coarse)
    ensures |coarse| <= |fine|
  {
    var k := 0;
    ghost var prev := -1;
    while k < |coarse|
      invariant k <= |coarse| && -1 <= prev < |fine| && k <= prev + 1
      invariant k > 0 ==> prev >= 0 && fine[prev].Holds(coarse[k - 1].start)
    {
      TilesInside(coarse, lo, hi, k);
      var i := TilesCover(fine, lo, hi, coarse[k].start);
      if k > 0 { FirstsDiffer(fine, coarse, lo, hi, k, prev, i); }
      prev := i;
      k := k + 1;
    }
  }

  /** The fine ranges that hold the starts of consecutive coarse ranges come in order. */
  lemma FirstsDiffer(fine: seq<Range>, coarse: seq<Range>, lo: nat, hi: nat, k: nat, i: nat, i': nat)
    requires Tiles(fine, lo, hi) && Tiles(coarse, lo, hi) && Refines(fine, coarse)
    requires 0 < k < |coarse| && i < |fine| && i' < |fine|
    requires fine[i].Holds(coarse[k - 1].start) && fine[i'].Holds(coarse[k].start)
    ensures i < i'
  {
    assert InsideOne(fine[i], coarse);
    var j :| 0 <= j < |coarse| && coarse[j].start <= fine[i].start && fine[i].end <= coarse[j].end;
    if j < k - 1 { TilesOrdered(coarse, lo, hi, j, k - 1); }
    if k - 1 < j { TilesOrdered(coarse, lo, hi, k - 1, j); }
    assert Joined(coarse, k);
    assert fine[i].end <= coarse[k].start;
    if i' < i { TilesOrdered(fine, lo, hi, i', i); }
  }
}
