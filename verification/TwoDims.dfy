/** Groups that span two dimensions of a factorisation. */
module TwoDims {
  import opened Arith
  import opened MixedRadix
  import opened Hierarchy

  /** The mask that selects dimensions `lo` and `hi` only. */
  function TwoHot(n: nat, lo: nat, hi: nat): (mask: seq<bool>)
    ensures |mask| == n
  {
    seq(n, j => j == lo || j == hi)
  }

  lemma StrideShift(sizes: seq<nat>, i: nat)
    requires 0 < i < |sizes|
    ensures StrideOf(sizes, i) == sizes[0] * StrideOf(sizes[1..], i - 1)
  {
    assert sizes[..i][1..] == sizes[1..][..i - 1];
  }

  lemma FirstStride(sizes: seq<nat>)
    ensures StrideOf(sizes, 0) == 1
  {
    assert sizes[..0] == [];
  }

  // ---- The rank at a position, relative to the first of its group ----

  lemma {:induction false} NoneOffset(sizes: seq<nat>, g: nat, k: nat)
    requires Positive(sizes)
    ensures RankAt(sizes, OneHot(|sizes|, |sizes|), g, k) == RankAt(sizes, OneHot(|sizes|, |sizes|), g, 0)
  {
    if sizes != [] {
      assert OneHot(|sizes|, |sizes|)[1..] == OneHot(|sizes| - 1, |sizes| - 1);
      NoneOffset(sizes[1..], g / sizes[0], k);
    }
  }

  lemma ScaleOffset(low: nat, s: nat, base: nat, stride: nat, x: nat)
    ensures low + s * (base + stride * x) == low + s * base + s * stride * x
  {
    MulAssoc(s, stride, x);
    assert s * (base + stride * x) == s * base + s * (stride * x);
  }

  lemma {:induction false} OneHotOffset(sizes: seq<nat>, i: nat, g: nat, k: nat)
    requires Positive(sizes) && i < |sizes|
    ensures RankAt(sizes, OneHot(|sizes|, i), g, k)
         == RankAt(sizes, OneHot(|sizes|, i), g, 0) + StrideOf(sizes, i) * (k % sizes[i])
  {
    var s, rest, m := sizes[0], sizes[1..], OneHot(|sizes|, i)[1..];
    if i == 0 {
      assert m == OneHot(|rest|, |rest|);
      FirstStride(sizes);
      NoneOffset(rest, g, k / s);
      DivModUnique(0, s, 0, 0);
    } else {
      assert m == OneHot(|rest|, i - 1);
      StrideShift(sizes, i);
      OneHotOffset(rest, i - 1, g / s, k);
      ScaleOffset(g % s, s, RankAt(rest, m, g / s, 0), StrideOf(rest, i - 1), k % sizes[i]);
    }
  }

  /** How far the position `k` of a group over two dimensions lies from its first rank. */
  function Offset(sLo: nat, a: nat, sHi: nat, k: nat): nat
    requires 0 < a
  {
    sLo * (k % a) + sHi * (k / a)
  }

  lemma {:induction false} FirstHotOffset(sizes: seq<nat>, hi: nat, g: nat, k: nat)
    requires Positive(sizes) && 0 < hi < |sizes| && k < sizes[0] * sizes[hi]
    ensures RankAt(sizes, TwoHot(|sizes|, 0, hi), g, k)
         == RankAt(sizes, TwoHot(|sizes|, 0, hi), g, 0) + Offset(StrideOf(sizes, 0), sizes[0], StrideOf(sizes, hi), k)
  {
    var s, rest, mask := sizes[0], sizes[1..], TwoHot(|sizes|, 0, hi);
    assert mask[1..] == OneHot(|rest|, hi - 1);
    RankAtUnfold(sizes, mask, g, k);
    RankAtUnfold(sizes, mask, g, 0);
    StrideShift(sizes, hi);
    FirstStride(sizes);
    DivBound(k, s, sizes[hi]);
    DivModUnique(k / s, sizes[hi], 0, k / s);
    OneHotOffset(rest, hi - 1, g, k / s);
    DivModUnique(0, s, 0, 0);
    ScaleOffset(k % s, s, RankAt(rest, mask[1..], g, 0), StrideOf(rest, hi - 1), k / s);
  }

  lemma {:induction false} TwoHotOffset(sizes: seq<nat>, lo: nat, hi: nat, g: nat, k: nat)
    requires Positive(sizes) && lo < hi < |sizes| && k < sizes[lo] * sizes[hi]
    ensures RankAt(sizes, TwoHot(|sizes|, lo, hi), g, k)
         == RankAt(sizes, TwoHot(|sizes|, lo, hi), g, 0) + Offset(StrideOf(sizes, lo), sizes[lo], StrideOf(sizes, hi), k)
  {
    if lo == 0 {
      FirstHotOffset(sizes, hi, g, k);
    } else {
      var s, rest := sizes[0], sizes[1..];
      TwoHotOffset(rest, lo - 1, hi - 1, g / s, k);
      LaterHot(sizes, lo, hi, g, k);
      LaterHot(sizes, lo, hi, g, 0);
      StrideShift(sizes, lo);
      StrideShift(sizes, hi);
      var mask := TwoHot(|rest|, lo - 1, hi - 1);
      LaterOffset(s, RankAt(rest, mask, g / s, k), RankAt(rest, mask, g / s, 0), StrideOf(rest, lo - 1), sizes[lo], StrideOf(rest, hi - 1), k);
    }
  }

  lemma LaterHot(sizes: seq<nat>, lo: nat, hi: nat, g: nat, k: nat)
    requires Positive(sizes) && 0 < lo < hi < |sizes|
    ensures RankAt(sizes, TwoHot(|sizes|, lo, hi), g, k)
         == g % sizes[0] + sizes[0] * RankAt(sizes[1..], TwoHot(|sizes| - 1, lo - 1, hi - 1), g / sizes[0], k)
  {
    var mask := TwoHot(|sizes|, lo, hi);
    assert mask[1..] == TwoHot(|sizes| - 1, lo - 1, hi - 1);
    RankAtUnfold(sizes, mask, g, k);
  }

  lemma LaterOffset(s: nat, x: nat, base: nat, sLo: nat, a: nat, sHi: nat, k: nat)
    requires 0 < a && x == base + Offset(sLo, a, sHi, k)
    ensures s * x == s * base + Offset(s * sLo, a, s * sHi, k)
  {
    OffsetScale(s, base, sLo, a, sHi, k);
  }

  lemma OffsetScale(s: nat, base: nat, sLo: nat, a: nat, sHi: nat, k: nat)
    requires 0 < a
    ensures s * (base + Offset(sLo, a, sHi, k)) == s * base + Offset(s * sLo, a, s * sHi, k)
  {
    MulAssoc(s, sLo, k % a);
    MulAssoc(s, sHi, k / a);
    assert s * (base + (sLo * (k % a) + sHi * (k / a))) == s * base + s * (sLo * (k % a)) + s * (sHi * (k / a));
  }

  // ---- The position of a rank ----

  lemma {:induction false} NonePos(sizes: seq<nat>, r: nat)
    requires Positive(sizes)
    ensures PosOf(sizes, OneHot(|sizes|, |sizes|), r) == 0
  {
    if sizes != [] {
      assert OneHot(|sizes|, |sizes|)[1..] == OneHot(|sizes| - 1, |sizes| - 1);
      NonePos(sizes[1..], r / sizes[0]);
    }
  }

  lemma FirstCoord(sizes: seq<nat>, r: nat)
    requires Positive(sizes) && sizes != []
    ensures Coord(sizes, 0, r) == r % sizes[0]
  {
    assert sizes[..0] == [];
  }

  /** Along one dimension the position of a rank is its coordinate. */
  lemma {:induction false} OneHotPos(sizes: seq<nat>, i: nat, r: nat)
    requires Positive(sizes) && i < |sizes|
    ensures PosOf(sizes, OneHot(|sizes|, i), r) == Coord(sizes, i, r)
  {
    var s, rest, m := sizes[0], sizes[1..], OneHot(|sizes|, i)[1..];
    if i == 0 {
      assert m == OneHot(|rest|, |rest|);
      NonePos(rest, r / s);
      FirstCoord(sizes, r);
    } else {
      assert m == OneHot(|rest|, i - 1);
      OneHotPos(rest, i - 1, r / s);
      CoordShift(sizes, i, r);
    }
  }

  /** Over two dimensions it is the two-digit number of the coordinates. */
  lemma {:induction false} TwoHotPos(sizes: seq<nat>, lo: nat, hi: nat, r: nat)
    requires Positive(sizes) && lo < hi < |sizes|
    ensures PosOf(sizes, TwoHot(|sizes|, lo, hi), r) == Coord(sizes, lo, r) + sizes[lo] * Coord(sizes, hi, r)
  {
    var s, rest, m := sizes[0], sizes[1..], TwoHot(|sizes|, lo, hi)[1..];
    CoordShift(sizes, hi, r);
    if lo == 0 {
      assert m == OneHot(|rest|, hi - 1);
      OneHotPos(rest, hi - 1, r / s);
      FirstCoord(sizes, r);
    } else {
      assert m == TwoHot(|rest|, lo - 1, hi - 1);
      TwoHotPos(rest, lo - 1, hi - 1, r / s);
      CoordShift(sizes, lo, r);
    }
  }

  lemma {:induction false} TwoHotSize(sizes: seq<nat>, lo: nat, hi: nat)
    requires lo < hi < |sizes|
    ensures GroupSize(sizes, TwoHot(|sizes|, lo, hi)) == sizes[lo] * sizes[hi]
  {
    var rest, m := sizes[1..], TwoHot(|sizes|, lo, hi)[1..];
    CountsUnfold(sizes, TwoHot(|sizes|, lo, hi));
    if lo == 0 {
      assert m == OneHot(|rest|, hi - 1);
      OneHotCounts(rest, hi - 1);
    } else {
      assert m == TwoHot(|rest|, lo - 1, hi - 1);
      TwoHotSize(rest, lo - 1, hi - 1);
    }
  }
}
