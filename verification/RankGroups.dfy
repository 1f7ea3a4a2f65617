/** Rank groups of orthogonal parallelism: which global ranks form the tensor, pipeline, data, ...
    groups, given the size of every parallel dimension and a mask choosing the dimensions a group
    spans. A process group is modelled as its list of ranks. */
module RankGroups {
  import opened Arith
  import opened MixedRadix
  import opened Sequences

  /** Running products `init, init*a[0], init*a[0]*a[1], ...`. */
  function PrefixProducts(a: seq<nat>, init: nat): (r: seq<nat>)
    ensures |r| == |a| + 1
  {
    if a == [] then [init] else [init] + PrefixProducts(a[1..], init * a[0])
  }

  lemma {:induction false} PrefixProductsAt(a: seq<nat>, init: nat, i: nat)
    requires i <= |a|
    ensures PrefixProducts(a, init)[i] == init * Prod(a[..i])
  {
    if i == 0 {
      assert a[..0] == [];
    } else {
      PrefixProductsAt(a[1..], init * a[0], i - 1);
      assert a[..i][1..] == a[1..][..i - 1];
      MulAssoc(init, a[0], Prod(a[1..][..i - 1]));
    }
  }

  method PrefixProduct(a: seq<nat>, init: nat) returns (r: seq<nat>)
    ensures r == PrefixProducts(a, init)
  {
    var acc := init;
    r := [acc];
    for i := 0 to |a|
      invariant |r| == i + 1 && acc == r[i]
      invariant r == PrefixProducts(a, init)[..i + 1]
    {
      acc := acc * a[i];
      r := r + [acc];
      PrefixProductsStep(a, init, i);
    }
  }

  lemma {:induction false} PrefixProductsStep(a: seq<nat>, init: nat, i: nat)
    requires i < |a|
    ensures PrefixProducts(a, init)[i + 1] == PrefixProducts(a, init)[i] * a[i]
  {
    if i > 0 {
      PrefixProductsStep(a[1..], init * a[0], i - 1);
    }
  }

  /** `sum(x * y for x, y in zip(a, b))`. */
  function InnerProduct(a: seq<nat>, b: seq<nat>): nat {
    if a == [] || b == [] then 0 else a[0] * b[0] + InnerProduct(a[1..], b[1..])
  }

  /** The mixed-radix digits of `n`, least significant first. */
  function Digits(n: nat, shape: seq<nat>): (idx: seq<nat>)
    requires Positive(shape)
    ensures |idx| == |shape|
    decreases shape
  {
    if shape == [] then [] else [n % shape[0]] + Digits(n / shape[0], shape[1..])
  }

  lemma {:induction false} DigitsAt(n: nat, shape: seq<nat>, i: nat)
    requires Positive(shape) && i < |shape|
    ensures Digits(n, shape)[i] == Coord(shape, i, n)
    decreases shape
  {
    if i == 0 {
      assert shape[..0] == [];
    } else {
      DigitsAt(n / shape[0], shape[1..], i - 1);
      CoordShift(shape, i, n);
    }
  }

  /** Weighing the digits with their strides gives `n` back, reduced to the range of the shape. */
  lemma {:induction false} DigitsRecompose(n: nat, shape: seq<nat>, c: nat)
    requires Positive(shape)
    ensures 0 < Prod(shape)
    ensures InnerProduct(Digits(n, shape), PrefixProducts(shape, c)[..|shape|]) == c * (n % Prod(shape))
    decreases shape
  {
    ProdPositive(shape);
    if shape != [] {
      var s, rest := shape[0], shape[1..];
      var stride := PrefixProducts(shape, c)[..|shape|];
      DigitsRecompose(n / s, rest, c * s);
      DivModProduct(n, s, Prod(rest));
      assert stride[1..] == PrefixProducts(rest, c * s)[..|rest|];
      RecomposeStep(c, s, n % s, n / s % Prod(rest));
    }
  }

  lemma RecomposeStep(c: nat, s: nat, low: nat, high: nat)
    ensures low * c + c * s * high == c * (low + s * high)
  {
    MulAssoc(c, s, high);
  }

  lemma {:induction false} DigitByStride(index: nat, shape: seq<nat>, i: nat)
    requires Positive(shape) && i < |shape|
    ensures 0 < PrefixProducts(shape, 1)[i]
    ensures Digits(index, shape)[i] == index / PrefixProducts(shape, 1)[i] % shape[i]
  {
    PrefixProductsAt(shape, 1, i);
    DigitsAt(index, shape, i);
    ProdPositive(shape[..i]);
  }

  lemma {:induction false} RecomposesIff(index: nat, shape: seq<nat>)
    requires Positive(shape)
    ensures InnerProduct(Digits(index, shape), PrefixProducts(shape, 1)[..|shape|]) == index <==> index < Prod(shape)
  {
    DigitsRecompose(index, shape, 1);
    DivModId(index, Prod(shape));
    if index < Prod(shape) {
      DivModUnique(index, Prod(shape), 0, index);
    }
  }

  /** `decompose`: every digit is `(index // stride) % size`; the assertion that the digits recompose
      to `index` fails exactly for indices beyond the shape. */
  method Decompose(index: nat, shape: seq<nat>) returns (r: Result<seq<nat>>)
    requires Positive(shape)
    ensures r == if index < Prod(shape) then Ok(Digits(index, shape)) else Err
  {
    var stride := PrefixProduct(shape, 1);
    var idx: seq<nat> := [];
    for i := 0 to |shape|
      invariant |idx| == i
      invariant forall j :: 0 <= j < i ==> idx[j] == Digits(index, shape)[j]
    {
      DigitByStride(index, shape, i);
      idx := idx + [index / stride[i] % shape[i]];
    }
    assert idx == Digits(index, shape);
    RecomposesIff(index, shape);
    if InnerProduct(idx, stride[..|stride| - 1]) == index {
      r := Ok(idx);
    } else {
      r := Err;
    }
  }

  /** The digits of `n` over the selected dimensions, weighted with the global strides from `init`. */
  ghost function Weighted(sizes: seq<nat>, mask: seq<bool>, keep: bool, init: nat, n: nat): nat
    requires |sizes| == |mask| && Positive(sizes)
  {
    if sizes == [] then 0
    else if mask[0] == keep
    then n % sizes[0] * init + Weighted(sizes[1..], mask[1..], keep, init * sizes[0], n / sizes[0])
    else Weighted(sizes[1..], mask[1..], keep, init * sizes[0], n)
  }

  lemma {:induction false} WeightedIsInnerProduct(sizes: seq<nat>, mask: seq<bool>, keep: bool, init: nat, n: nat)
    requires |sizes| == |mask| && Positive(sizes) && Positive(Select(sizes, mask, keep))
    ensures InnerProduct(Digits(n, Select(sizes, mask, keep)), Select(PrefixProducts(sizes, init)[..|sizes|], mask, keep))
         == Weighted(sizes, mask, keep, init, n)
  {
    if sizes != [] {
      var s, rest, m := sizes[0], sizes[1..], mask[1..];
      var stride := PrefixProducts(sizes, init)[..|sizes|];
      assert stride[1..] == PrefixProducts(rest, init * s)[..|rest|];
      var shape, sel := Select(rest, m, keep), Select(stride[1..], m, keep);
      SelectPositive(rest, m, keep);
      if mask[0] == keep {
        WeightedIsInnerProduct(rest, m, keep, init * s, n / s);
        assert ([s] + shape)[1..] == shape && ([init] + sel)[1..] == sel;
        assert ([n % s] + Digits(n / s, shape))[1..] == Digits(n / s, shape);
      } else {
        WeightedIsInnerProduct(rest, m, keep, init * s, n);
        assert [] + shape == shape && [] + sel == sel;
      }
    }
  }

  /** The two inner products of the stride formula add up to the mixed-radix rank. */
  lemma {:induction false} StrideFormula(sizes: seq<nat>, mask: seq<bool>, init: nat, g: nat, k: nat)
    requires |sizes| == |mask| && Positive(sizes)
    ensures Weighted(sizes, mask, true, init, k) + Weighted(sizes, mask, false, init, g)
         == init * RankAt(sizes, mask, g, k)
  {
    if sizes != [] {
      var s, rest, m := sizes[0], sizes[1..], mask[1..];
      if mask[0] {
        StrideFormula(rest, m, init * s, g, k / s);
        RecomposeStep(init, s, k % s, RankAt(rest, m, g, k / s));
      } else {
        StrideFormula(rest, m, init * s, g / s, k);
        RecomposeStep(init, s, g % s, RankAt(rest, m, g / s, k));
      }
    }
  }

  /** Reference enumeration: group `g` lists the ranks whose unmasked digits spell `g`. */
  function Group(sizes: seq<nat>, mask: seq<bool>, g: nat): (r: seq<nat>)
    requires |sizes| == |mask| && Positive(sizes)
    ensures |r| == GroupSize(sizes, mask)
  {
    seq(GroupSize(sizes, mask), k requires 0 <= k => RankAt(sizes, mask, g, k))
  }

  function Groups(sizes: seq<nat>, mask: seq<bool>, count: nat): (r: seq<seq<nat>>)
    requires |sizes| == |mask| && Positive(sizes)
    ensures |r| == count
  {
    seq(count, g requires 0 <= g => Group(sizes, mask, g))
  }

  /** All groups of a world that is exactly the product of its sizes. */
  function AllGroups(sizes: seq<nat>, mask: seq<bool>): (r: seq<seq<nat>>)
    requires |sizes| == |mask| && Positive(sizes)
    ensures |r| == GroupCount(sizes, mask)
  {
    Groups(sizes, mask, GroupCount(sizes, mask))
  }

  lemma {:induction false} GroupCountOfWorld(sizes: seq<nat>, mask: seq<bool>)
    requires |sizes| == |mask| && Positive(sizes)
    ensures 0 < GroupSize(sizes, mask) && Prod(sizes) / GroupSize(sizes, mask) == GroupCount(sizes, mask)
  {
    CountsPositive(sizes, mask);
    CountsMultiply(sizes, mask);
    DivModUnique(Prod(sizes), GroupSize(sizes, mask), GroupCount(sizes, mask), 0);
  }

  lemma {:induction false} LastPrefixProduct(a: seq<nat>)
    ensures PrefixProducts(a, 1)[|a|] == Prod(a)
  {
    PrefixProductsAt(a, 1, |a|);
    assert a[..|a|] == a;
  }

  /** Every rank raised by an offset. */
  function Shift(groups: seq<seq<nat>>, base: nat): (r: seq<seq<nat>>)
    ensures |r| == |groups|
  {
    seq(|groups|, g requires 0 <= g < |groups| => seq(|groups[g]|, k requires 0 <= k < |groups[g]| => groups[g][k] + base))
  }

  /** `generate_masked_orthogonal_rank_groups`. It fails exactly when the world asks for more groups
      than the unmasked dimensions can index. */
  method GenerateMaskedOrthogonalRankGroups(worldSize: nat, sizes: seq<nat>, mask: seq<bool>)
    returns (r: Result<seq<seq<nat>>>)
    requires |sizes| == |mask| && Positive(sizes)
    ensures 0 < GroupSize(sizes, mask)
    ensures r.Ok? <==> worldSize / GroupSize(sizes, mask) <= GroupCount(sizes, mask)
    ensures r.Ok? ==> r.value == Groups(sizes, mask, worldSize / GroupSize(sizes, mask))
    ensures worldSize == Prod(sizes) ==> r == Ok(AllGroups(sizes, mask))
  {
    GroupCountOfWorld(sizes, mask);
    var sizeProducts := PrefixProduct(Select(sizes, mask, true), 1);
    var groupSize := sizeProducts[|sizeProducts| - 1];
    LastPrefixProduct(Select(sizes, mask, true));
    r := BuildGroups(sizes, mask, groupSize, worldSize / groupSize);
  }

  /** The outer loop: `numOfGroup` groups, or an error once a group index cannot be decomposed. */
  method BuildGroups(sizes: seq<nat>, mask: seq<bool>, groupSize: nat, numOfGroup: nat) returns (r: Result<seq<seq<nat>>>)
    requires |sizes| == |mask| && Positive(sizes) && groupSize == GroupSize(sizes, mask)
    ensures r == if numOfGroup <= GroupCount(sizes, mask) then Ok(Groups(sizes, mask, numOfGroup)) else Err
  {
    var globalStride := PrefixProduct(sizes, 1);
    var ranks: seq<seq<nat>> := [];
    for g := 0 to numOfGroup
      invariant g <= GroupCount(sizes, mask) && |ranks| == g
      invariant forall h :: 0 <= h < g ==> ranks[h] == Group(sizes, mask, h)
    {
      var rank := BuildGroup(sizes, mask, globalStride[..|mask|], groupSize, g);
      if rank.Err? {
        return Err;
      }
      ranks := ranks + [rank.value];
    }
    assert ranks == Groups(sizes, mask, numOfGroup);
    r := Ok(ranks);
  }

  /** The inner loop: the ranks of one group, in the order of their position. */
  method BuildGroup(sizes: seq<nat>, mask: seq<bool>, stride: seq<nat>, groupSize: nat, g: nat)
    returns (r: Result<seq<nat>>)
    requires |sizes| == |mask| && Positive(sizes)
    requires groupSize == GroupSize(sizes, mask) && stride == PrefixProducts(sizes, 1)[..|sizes|]
    ensures r == if g < GroupCount(sizes, mask) then Ok(Group(sizes, mask, g)) else Err
  {
    SelectPositive(sizes, mask, false);
    var groupIdx := Decompose(g, Select(sizes, mask, false));
    if groupIdx.Err? {
      return Err;
    }
    var rank: seq<nat> := [];
    for k := 0 to groupSize
      invariant |rank| == k
      invariant forall j :: 0 <= j < k ==> rank[j] == RankAt(sizes, mask, g, j)
    {
      var entry := Entry(sizes, mask, stride, groupIdx.value, g, k);
      rank := rank + [entry];
    }
    assert rank == Group(sizes, mask, g);
    r := Ok(rank);
  }

  method Entry(sizes: seq<nat>, mask: seq<bool>, stride: seq<nat>, groupIdx: seq<nat>, ghost g: nat, k: nat)
    returns (rank: nat)
    requires |sizes| == |mask| && Positive(sizes) && k < GroupSize(sizes, mask)
    requires Positive(Select(sizes, mask, false)) && groupIdx == Digits(g, Select(sizes, mask, false))
    requires stride == PrefixProducts(sizes, 1)[..|sizes|]
    ensures rank == RankAt(sizes, mask, g, k)
  {
    SelectPositive(sizes, mask, true);
    var rankIdx := Decompose(k, Select(sizes, mask, true));
    WeightedIsInnerProduct(sizes, mask, true, 1, k);
    WeightedIsInnerProduct(sizes, mask, false, 1, g);
    StrideFormula(sizes, mask, 1, g, k);
    rank := InnerProduct(rankIdx.value, Select(stride, mask, true)) + InnerProduct(groupIdx, Select(stride, mask, false));
  }

  ghost predicate StrictlyIncreasing(s: seq<nat>) {
    forall i, j :: 0 <= i < j < |s| ==> s[i] < s[j]
  }

  /** Position `k` of group `g` exists and holds rank `r`. */
  ghost predicate At(groups: seq<seq<nat>>, g: int, k: int, r: nat) {
    0 <= g < |groups| && 0 <= k < |groups[g]| && groups[g][k] == r
  }

  ghost predicate Occurs(groups: seq<seq<nat>>, r: nat) {
    exists g, k :: At(groups, g, k, r)
  }

  /** The ranks that occur are those below `n`, and each occurs at a single place. */
  ghost predicate Partitions(groups: seq<seq<nat>>, n: nat) {
    && (forall r: nat :: r < n <==> Occurs(groups, r))
    && (forall r: nat, g, k, g', k' :: At(groups, g, k, r) && At(groups, g', k', r) ==> g == g' && k == k')
  }

  lemma {:induction false} AtIff(sizes: seq<nat>, mask: seq<bool>, g: int, k: int, r: nat)
    requires |sizes| == |mask| && Positive(sizes)
    ensures At(AllGroups(sizes, mask), g, k, r) <==>
            r < Prod(sizes) && g == GroupOf(sizes, mask, r) && k == PosOf(sizes, mask, r)
  {
    if At(AllGroups(sizes, mask), g, k, r) {
      RankAtBound(sizes, mask, g, k);
      SplitRecombine(sizes, mask, g, k);
    }
    if r < Prod(sizes) {
      RecombineSplit(sizes, mask, r);
      PartBound(sizes, mask, true, r);
      PartBound(sizes, mask, false, r);
    }
  }

  /** For every shape and mask the groups are increasing lists that partition the world. */
  lemma {:induction false} GroupsPartitionWorld(sizes: seq<nat>, mask: seq<bool>)
    requires |sizes| == |mask| && Positive(sizes)
    ensures Partitions(AllGroups(sizes, mask), Prod(sizes))
    ensures forall g :: 0 <= g < GroupCount(sizes, mask) ==> StrictlyIncreasing(AllGroups(sizes, mask)[g])
  {
    var groups := AllGroups(sizes, mask);
    forall r: nat, g, k
      ensures At(groups, g, k, r) <==> r < Prod(sizes) && g == GroupOf(sizes, mask, r) && k == PosOf(sizes, mask, r)
    {
      AtIff(sizes, mask, g, k, r);
    }
    forall r: nat
      ensures r < Prod(sizes) <==> Occurs(groups, r)
    {
      if r < Prod(sizes) {
        assert At(groups, GroupOf(sizes, mask, r), PosOf(sizes, mask, r), r);
      }
    }
    forall g | 0 <= g < GroupCount(sizes, mask)
      ensures StrictlyIncreasing(groups[g])
    {
      forall i, j | 0 <= i < j < GroupSize(sizes, mask)
        ensures groups[g][i] < groups[g][j]
      {
        RankAtIncreasing(sizes, mask, g, i, j);
      }
    }
  }

  /** The groups come in the order of their first ranks. */
  lemma {:induction false} GroupsAscend(sizes: seq<nat>, mask: seq<bool>, g: nat, g': nat)
    requires |sizes| == |mask| && Positive(sizes) && g < g' < GroupCount(sizes, mask)
    ensures 0 < GroupSize(sizes, mask) && AllGroups(sizes, mask)[g][0] < AllGroups(sizes, mask)[g'][0]
  {
    CountsPositive(sizes, mask);
    RankAtSwap(sizes, mask, g, 0);
    RankAtSwap(sizes, mask, g', 0);
    ComplementSwaps(sizes, mask, true, 0);
    RankAtIncreasing(sizes, Complement(mask), 0, g, g');
  }

  /** Two ranks are in one group exactly when they agree on every coordinate outside the mask. */
  lemma {:induction false} SameGroupIff(sizes: seq<nat>, mask: seq<bool>, r: nat, r': nat)
    requires |sizes| == |mask| && Positive(sizes) && r < Prod(sizes) && r' < Prod(sizes)
    ensures (exists g :: 0 <= g < GroupCount(sizes, mask) && r in AllGroups(sizes, mask)[g] && r' in AllGroups(sizes, mask)[g])
       <==> AgreeOn(sizes, mask, false, r, r')
  {
    var groups := AllGroups(sizes, mask);
    PartEqualIffAgree(sizes, mask, false, r, r');
    MemberIff(sizes, mask, r);
    MemberIff(sizes, mask, r');
    if AgreeOn(sizes, mask, false, r, r') {
      assert r in groups[GroupOf(sizes, mask, r)] && r' in groups[GroupOf(sizes, mask, r)];
    }
  }

  lemma {:induction false} MemberIff(sizes: seq<nat>, mask: seq<bool>, r: nat)
    requires |sizes| == |mask| && Positive(sizes) && r < Prod(sizes)
    ensures GroupOf(sizes, mask, r) < GroupCount(sizes, mask)
    ensures forall g :: 0 <= g < GroupCount(sizes, mask) ==>
              (r in AllGroups(sizes, mask)[g] <==> g == GroupOf(sizes, mask, r))
  {
    var groups := AllGroups(sizes, mask);
    PartBound(sizes, mask, false, r);
    forall g | 0 <= g < GroupCount(sizes, mask)
      ensures r in groups[g] <==> g == GroupOf(sizes, mask, r)
    {
      AtIff(sizes, mask, g, PosOf(sizes, mask, r), r);
      if r in groups[g] {
        var k :| 0 <= k < |groups[g]| && groups[g][k] == r;
        AtIff(sizes, mask, g, k, r);
      }
    }
  }

  lemma {:induction false} ComplementSwaps(sizes: seq<nat>, mask: seq<bool>, keep: bool, r: nat)
    requires |sizes| == |mask| && Positive(sizes)
    ensures Select(sizes, Complement(mask), keep) == Select(sizes, mask, !keep)
    ensures Part(sizes, Complement(mask), keep, r) == Part(sizes, mask, !keep, r)
  {
    if sizes != [] {
      assert Complement(mask)[1..] == Complement(mask[1..]);
      ComplementSwaps(sizes[1..], mask[1..], keep, r / sizes[0]);
    }
  }

  /** A group and a group of the complementary mask have exactly one rank in common. */
  lemma {:induction false} ComplementMeetsOnce(sizes: seq<nat>, mask: seq<bool>, g: nat, h: nat)
    requires |sizes| == |mask| && Positive(sizes)
    requires g < GroupCount(sizes, mask) && h < GroupCount(sizes, Complement(mask))
    ensures (set r | r in AllGroups(sizes, mask)[g] && r in AllGroups(sizes, Complement(mask))[h])
         == {RankAt(sizes, mask, g, h)}
  {
    var mask' := Complement(mask);
    var a, b := AllGroups(sizes, mask)[g], AllGroups(sizes, mask')[h];
    ComplementSwaps(sizes, mask, false, 0);
    SplitRecombine(sizes, mask, g, h);
    forall r: nat
      ensures r in a && r in b <==> r == RankAt(sizes, mask, g, h)
    {
      RankAtBound(sizes, mask, g, h);
      if r in a {
        GroupRanksBound(sizes, mask, g);
      }
      if r < Prod(sizes) {
        MemberIff(sizes, mask, r);
        MemberIff(sizes, mask', r);
        ComplementSwaps(sizes, mask, false, r);
        RecombineSplit(sizes, mask, r);
      }
    }
  }

  lemma {:induction false} GroupRanksBound(sizes: seq<nat>, mask: seq<bool>, g: nat)
    requires |sizes| == |mask| && Positive(sizes)
    ensures forall r :: r in Group(sizes, mask, g) ==> r < Prod(sizes)
  {
    forall k: nat
      ensures RankAt(sizes, mask, g, k) < Prod(sizes)
    {
      RankAtBound(sizes, mask, g, k);
    }
  }
}
