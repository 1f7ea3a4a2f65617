/** Mixed-radix coordinates: a rank is a number whose digit in dimension `i` ranges over
    `[0, sizes[i])`, dimension 0 being the least significant. A mask splits the dimensions in two,
    and with them every rank into a group index (unmasked digits) and a position (masked digits). */
module MixedRadix {
  import opened Arith

  predicate Positive(sizes: seq<nat>) {
    forall i :: 0 <= i < |sizes| ==> 0 < sizes[i]
  }

  function Prod(sizes: seq<nat>): nat {
    if sizes == [] then 1 else sizes[0] * Prod(sizes[1..])
  }

  lemma ProdPositive(sizes: seq<nat>)
    requires Positive(sizes)
    ensures 0 < Prod(sizes)
  {
    if sizes != [] {
      ProdPositive(sizes[1..]);
    }
  }

  lemma {:induction false} ProdConcat(a: seq<nat>, b: seq<nat>)
    ensures Prod(a + b) == Prod(a) * Prod(b)
  {
    if a == [] {
      assert a + b == b;
    } else {
      assert (a + b)[1..] == a[1..] + b;
      ProdConcat(a[1..], b);
      assert a[0] * (Prod(a[1..]) * Prod(b)) == a[0] * Prod(a[1..]) * Prod(b);
    }
  }

  /** The elements of `s` whose mask bit equals `keep`, in order. */
  function Select<T>(s: seq<T>, mask: seq<bool>, keep: bool): seq<T>
    requires |s| == |mask|
  {
    if s == [] then []
    else (if mask[0] == keep then [s[0]] else []) + Select(s[1..], mask[1..], keep)
  }

  lemma SelectPositive(sizes: seq<nat>, mask: seq<bool>, keep: bool)
    requires |sizes| == |mask| && Positive(sizes)
    ensures Positive(Select(sizes, mask, keep))
  {
    if sizes != [] {
      SelectPositive(sizes[1..], mask[1..], keep);
    }
  }

  function GroupSize(sizes: seq<nat>, mask: seq<bool>): nat
    requires |sizes| == |mask|
  {
    Prod(Select(sizes, mask, true))
  }

  function GroupCount(sizes: seq<nat>, mask: seq<bool>): nat
    requires |sizes| == |mask|
  {
    Prod(Select(sizes, mask, false))
  }

  lemma CountsPositive(sizes: seq<nat>, mask: seq<bool>)
    requires |sizes| == |mask| && Positive(sizes)
    ensures 0 < GroupSize(sizes, mask) && 0 < GroupCount(sizes, mask)
  {
    SelectPositive(sizes, mask, true);
    SelectPositive(sizes, mask, false);
    ProdPositive(Select(sizes, mask, true));
    ProdPositive(Select(sizes, mask, false));
  }

  lemma {:induction false} CountsUnfold(sizes: seq<nat>, mask: seq<bool>)
    requires |sizes| == |mask| > 0
    ensures GroupSize(sizes, mask) ==
            var n := GroupSize(sizes[1..], mask[1..]); if mask[0] then sizes[0] * n else n
    ensures GroupCount(sizes, mask) ==
            var n := GroupCount(sizes[1..], mask[1..]); if mask[0] then n else sizes[0] * n
  {
    var rest, drop := Select(sizes[1..], mask[1..], true), Select(sizes[1..], mask[1..], false);
    assert ([sizes[0]] + rest)[1..] == rest && ([sizes[0]] + drop)[1..] == drop;
    assert [] + rest == rest && [] + drop == drop;
  }

  lemma {:induction false} CountsMultiply(sizes: seq<nat>, mask: seq<bool>)
    requires |sizes| == |mask|
    ensures GroupSize(sizes, mask) * GroupCount(sizes, mask) == Prod(sizes)
  {
    if sizes != [] {
      CountsMultiply(sizes[1..], mask[1..]);
      CountsUnfold(sizes, mask);
      var a, b := GroupSize(sizes[1..], mask[1..]), GroupCount(sizes[1..], mask[1..]);
      MulAssoc(sizes[0], a, b);
      MulAssoc(a, sizes[0], b);
    }
  }

  /** Dropping the lowest digit of an index keeps it within the remaining dimensions. */
  lemma {:induction false} DigitBound(sizes: seq<nat>, mask: seq<bool>, keep: bool, n: nat)
    requires |sizes| == |mask| > 0 && Positive(sizes)
    requires n < Prod(Select(sizes, mask, keep))
    ensures (if mask[0] == keep then n / sizes[0] else n) < Prod(Select(sizes[1..], mask[1..], keep))
  {
    CountsUnfold(sizes, mask);
    if mask[0] == keep {
      DivBound(n, sizes[0], Prod(Select(sizes[1..], mask[1..], keep)));
    }
  }

  /** The rank whose masked digits spell `k` and whose unmasked digits spell `g`. */
  function RankAt(sizes: seq<nat>, mask: seq<bool>, g: nat, k: nat): nat
    requires |sizes| == |mask| && Positive(sizes)
  {
    if sizes == [] then 0
    else if mask[0] then k % sizes[0] + sizes[0] * RankAt(sizes[1..], mask[1..], g, k / sizes[0])
    else g % sizes[0] + sizes[0] * RankAt(sizes[1..], mask[1..], g / sizes[0], k)
  }

  /** The number spelt by the digits of `r` whose mask bit equals `keep`. */
  function Part(sizes: seq<nat>, mask: seq<bool>, keep: bool, r: nat): nat
    requires |sizes| == |mask| && Positive(sizes)
  {
    if sizes == [] then 0
    else
      var rest := Part(sizes[1..], mask[1..], keep, r / sizes[0]);
      if mask[0] == keep then r % sizes[0] + sizes[0] * rest else rest
  }

  function GroupOf(sizes: seq<nat>, mask: seq<bool>, r: nat): nat
    requires |sizes| == |mask| && Positive(sizes)
  {
    Part(sizes, mask, false, r)
  }

  function PosOf(sizes: seq<nat>, mask: seq<bool>, r: nat): nat
    requires |sizes| == |mask| && Positive(sizes)
  {
    Part(sizes, mask, true, r)
  }

  lemma {:induction false} RankAtBound(sizes: seq<nat>, mask: seq<bool>, g: nat, k: nat)
    requires |sizes| == |mask| && Positive(sizes)
    ensures RankAt(sizes, mask, g, k) < Prod(sizes)
  {
    if sizes != [] {
      var s := sizes[0];
      var g', k' := if mask[0] then g else g / s, if mask[0] then k / s else k;
      RankAtBound(sizes[1..], mask[1..], g', k');
      TwoDigitsBound(if mask[0] then k % s else g % s, RankAt(sizes[1..], mask[1..], g', k'), s, Prod(sizes[1..]));
    }
  }

  lemma {:induction false} PartBound(sizes: seq<nat>, mask: seq<bool>, keep: bool, r: nat)
    requires |sizes| == |mask| && Positive(sizes)
    ensures Part(sizes, mask, keep, r) < Prod(Select(sizes, mask, keep))
  {
    if sizes != [] {
      var s := sizes[0];
      PartBound(sizes[1..], mask[1..], keep, r / s);
      CountsUnfold(sizes, mask);
      if mask[0] == keep {
        TwoDigitsBound(r % s, Part(sizes[1..], mask[1..], keep, r / s), s, Prod(Select(sizes[1..], mask[1..], keep)));
      }
    }
  }

  /** Splitting a rank and recombining the parts gives the rank back. */
  lemma {:induction false} RecombineSplit(sizes: seq<nat>, mask: seq<bool>, r: nat)
    requires |sizes| == |mask| && Positive(sizes) && r < Prod(sizes)
    ensures RankAt(sizes, mask, GroupOf(sizes, mask, r), PosOf(sizes, mask, r)) == r
  {
    if sizes != [] {
      var s := sizes[0];
      DivBound(r, s, Prod(sizes[1..]));
      RecombineSplit(sizes[1..], mask[1..], r / s);
      DivModId(r, s);
      RankAtStep(sizes, mask, r % s, GroupOf(sizes[1..], mask[1..], r / s), PosOf(sizes[1..], mask[1..], r / s));
    }
  }

  lemma {:induction false} RankAtStep(sizes: seq<nat>, mask: seq<bool>, low: nat, g: nat, k: nat)
    requires |sizes| == |mask| > 0 && Positive(sizes) && low < sizes[0]
    ensures mask[0] ==> RankAt(sizes, mask, g, low + sizes[0] * k) == low + sizes[0] * RankAt(sizes[1..], mask[1..], g, k)
    ensures !mask[0] ==> RankAt(sizes, mask, low + sizes[0] * g, k) == low + sizes[0] * RankAt(sizes[1..], mask[1..], g, k)
  {
    TwoDigits(low, k, sizes[0]);
    TwoDigits(low, g, sizes[0]);
  }

  lemma {:induction false} PartUnfold(sizes: seq<nat>, mask: seq<bool>, low: nat, rest: nat)
    requires |sizes| == |mask| > 0 && Positive(sizes) && low < sizes[0]
    ensures Part(sizes, mask, mask[0], low + sizes[0] * rest) == low + sizes[0] * Part(sizes[1..], mask[1..], mask[0], rest)
    ensures Part(sizes, mask, !mask[0], low + sizes[0] * rest) == Part(sizes[1..], mask[1..], !mask[0], rest)
  {
    TwoDigits(low, rest, sizes[0]);
  }

  /** Combining a group index and a position and splitting again gives both back. */
  lemma {:induction false} SplitRecombine(sizes: seq<nat>, mask: seq<bool>, g: nat, k: nat)
    requires |sizes| == |mask| && Positive(sizes)
    requires g < GroupCount(sizes, mask) && k < GroupSize(sizes, mask)
    ensures GroupOf(sizes, mask, RankAt(sizes, mask, g, k)) == g
    ensures PosOf(sizes, mask, RankAt(sizes, mask, g, k)) == k
  {
    if sizes != [] {
      var s := sizes[0];
      DigitBound(sizes, mask, true, k);
      DigitBound(sizes, mask, false, g);
      if mask[0] {
        SplitRecombine(sizes[1..], mask[1..], g, k / s);
      } else {
        SplitRecombine(sizes[1..], mask[1..], g / s, k);
      }
      SplitStep(sizes, mask, g, k);
    }
  }

  lemma {:induction false} SplitStep(sizes: seq<nat>, mask: seq<bool>, g: nat, k: nat)
    requires |sizes| == |mask| > 0 && Positive(sizes)
    requires var s, rest, m := sizes[0], sizes[1..], mask[1..];
             var g', k' := if mask[0] then g else g / s, if mask[0] then k / s else k;
             Part(rest, m, false, RankAt(rest, m, g', k')) == g' && Part(rest, m, true, RankAt(rest, m, g', k')) == k'
    ensures Part(sizes, mask, false, RankAt(sizes, mask, g, k)) == g
    ensures Part(sizes, mask, true, RankAt(sizes, mask, g, k)) == k
  {
    if mask[0] {
      RecombineStep(sizes, mask, k, g, RankAt(sizes[1..], mask[1..], g, k / sizes[0]));
    } else {
      RecombineStep(sizes, mask, g, k, RankAt(sizes[1..], mask[1..], g / sizes[0], k));
    }
  }

  lemma {:induction false} RecombineStep(sizes: seq<nat>, mask: seq<bool>, d: nat, e: nat, r: nat)
    requires |sizes| == |mask| > 0 && Positive(sizes)
    requires Part(sizes[1..], mask[1..], mask[0], r) == d / sizes[0]
    requires Part(sizes[1..], mask[1..], !mask[0], r) == e
    ensures Part(sizes, mask, mask[0], d % sizes[0] + sizes[0] * r) == d
    ensures Part(sizes, mask, !mask[0], d % sizes[0] + sizes[0] * r) == e
  {
    DivModId(d, sizes[0]);
    PartUnfold(sizes, mask, d % sizes[0], r);
  }

  /** Within a group, ranks increase with the position. */
  lemma {:induction false} RankAtIncreasing(sizes: seq<nat>, mask: seq<bool>, g: nat, k: nat, k': nat)
    requires |sizes| == |mask| && Positive(sizes)
    requires k < k' < GroupSize(sizes, mask)
    ensures RankAt(sizes, mask, g, k) < RankAt(sizes, mask, g, k')
  {
    if sizes != [] {
      var s, rest, m := sizes[0], sizes[1..], mask[1..];
      DigitBound(sizes, mask, true, k');
      if mask[0] {
        DivLess(k, k', s);
        if k / s < k' / s {
          RankAtIncreasing(rest, m, g, k / s, k' / s);
        }
        TwoDigitsLess(k % s, RankAt(rest, m, g, k / s), k' % s, RankAt(rest, m, g, k' / s), s);
      } else {
        RankAtIncreasing(rest, m, g / s, k, k');
        TwoDigitsLess(g % s, RankAt(rest, m, g / s, k), g % s, RankAt(rest, m, g / s, k'), s);
      }
      RankAtUnfold(sizes, mask, g, k);
      RankAtUnfold(sizes, mask, g, k');
    }
  }

  lemma RankAtUnfold(sizes: seq<nat>, mask: seq<bool>, g: nat, k: nat)
    requires |sizes| == |mask| > 0 && Positive(sizes)
    ensures var s, rest, m := sizes[0], sizes[1..], mask[1..];
            RankAt(sizes, mask, g, k) == if mask[0] then k % s + s * RankAt(rest, m, g, k / s) else g % s + s * RankAt(rest, m, g / s, k)
  {
  }

  /** Digit of rank `r` in dimension `i`, by the stride formula. */
  function Coord(sizes: seq<nat>, i: nat, r: nat): nat
    requires Positive(sizes) && i < |sizes|
  {
    ProdPositive(sizes[..i]);
    r / Prod(sizes[..i]) % sizes[i]
  }

  lemma {:induction false} CoordShift(sizes: seq<nat>, i: nat, r: nat)
    requires Positive(sizes) && 0 < i < |sizes|
    ensures Coord(sizes, i, r) == Coord(sizes[1..], i - 1, r / sizes[0])
  {
    assert sizes[..i][1..] == sizes[1..][..i - 1];
    ProdPositive(sizes[1..][..i - 1]);
    DivModProduct(r, sizes[0], Prod(sizes[1..][..i - 1]));
  }

  ghost predicate AgreeOn(sizes: seq<nat>, mask: seq<bool>, keep: bool, r: nat, r': nat)
    requires |sizes| == |mask| && Positive(sizes)
  {
    forall i :: 0 <= i < |sizes| && mask[i] == keep ==> Coord(sizes, i, r) == Coord(sizes, i, r')
  }

  /** Two ranks have the same selected part exactly when they agree on every selected digit. */
  lemma {:induction false} PartEqualIffAgree(sizes: seq<nat>, mask: seq<bool>, keep: bool, r: nat, r': nat)
    requires |sizes| == |mask| && Positive(sizes)
    ensures Part(sizes, mask, keep, r) == Part(sizes, mask, keep, r') <==> AgreeOn(sizes, mask, keep, r, r')
  {
    if sizes != [] {
      var s, rest, m := sizes[0], sizes[1..], mask[1..];
      PartEqualIffAgree(rest, m, keep, r / s, r' / s);
      AgreeUnfold(sizes, mask, keep, r, r');
      if mask[0] == keep {
        TwoDigits(r % s, Part(rest, m, keep, r / s), s);
        TwoDigits(r' % s, Part(rest, m, keep, r' / s), s);
      }
    }
  }

  lemma {:induction false} AgreeUnfold(sizes: seq<nat>, mask: seq<bool>, keep: bool, r: nat, r': nat)
    requires |sizes| == |mask| > 0 && Positive(sizes)
    ensures AgreeOn(sizes, mask, keep, r, r') <==>
            (mask[0] == keep ==> r % sizes[0] == r' % sizes[0]) &&
            AgreeOn(sizes[1..], mask[1..], keep, r / sizes[0], r' / sizes[0])
  {
    var s, rest, m := sizes[0], sizes[1..], mask[1..];
    assert sizes[..0] == [];
    forall i | 0 < i < |sizes|
      ensures Coord(sizes, i, r) == Coord(rest, i - 1, r / s) && Coord(sizes, i, r') == Coord(rest, i - 1, r' / s)
    {
      CoordShift(sizes, i, r);
      CoordShift(sizes, i, r');
    }
    if AgreeOn(sizes, mask, keep, r, r') {
      assert mask[0] == keep ==> Coord(sizes, 0, r) == Coord(sizes, 0, r');
      forall j | 0 <= j < |rest| && m[j] == keep
        ensures Coord(rest, j, r / s) == Coord(rest, j, r' / s)
      {
        assert mask[j + 1] == keep;
        assert Coord(sizes, j + 1, r) == Coord(sizes, j + 1, r');
      }
    }
  }

  function Complement(mask: seq<bool>): (c: seq<bool>)
    ensures |c| == |mask|
  {
    seq(|mask|, i requires 0 <= i < |mask| => !mask[i])
  }

  /** Complementing the mask swaps the roles of group index and position. */
  lemma {:induction false} RankAtSwap(sizes: seq<nat>, mask: seq<bool>, g: nat, k: nat)
    requires |sizes| == |mask| && Positive(sizes)
    ensures RankAt(sizes, Complement(mask), k, g) == RankAt(sizes, mask, g, k)
  {
    if sizes != [] {
      assert Complement(mask)[1..] == Complement(mask[1..]);
      var s := sizes[0];
      RankAtSwap(sizes[1..], mask[1..], if mask[0] then g else g / s, if mask[0] then k / s else k);
    }
  }
}
