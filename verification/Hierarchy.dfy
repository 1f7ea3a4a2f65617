/** Groups along a single dimension, and the hierarchical split of a rank list into levels. */
module Hierarchy {
  import opened Arith
  import opened MixedRadix
  import opened RankGroups
  import opened Sequences
  import opened Einops

  /** The mask that selects dimension `i` only. */
  function OneHot(n: nat, i: nat): (mask: seq<bool>)
    ensures |mask| == n
  {
    seq(n, j => j == i)
  }

  lemma {:induction false} SelectNone(sizes: seq<nat>, n: nat)
    requires |sizes| == n
    ensures Select(sizes, OneHot(n, n), false) == sizes && Select(sizes, OneHot(n, n), true) == []
  {
    if n > 0 {
      assert OneHot(n, n)[1..] == OneHot(n - 1, n - 1);
      SelectNone(sizes[1..], n - 1);
    }
  }

  lemma {:induction false} SelectOneHot(sizes: seq<nat>, i: nat)
    requires i < |sizes|
    ensures Select(sizes, OneHot(|sizes|, i), true) == [sizes[i]]
    ensures Select(sizes, OneHot(|sizes|, i), false) == sizes[..i] + sizes[i + 1..]
  {
    var rest, m := sizes[1..], OneHot(|sizes|, i)[1..];
    if i == 0 {
      assert m == OneHot(|rest|, |rest|);
      SelectNone(rest, |rest|);
    } else {
      assert m == OneHot(|rest|, i - 1);
      SelectOneHot(rest, i - 1);
      assert [sizes[0]] + (rest[..i - 1] + rest[i..]) == sizes[..i] + sizes[i + 1..];
    }
  }

  /** Stride of dimension `i`: the product of the sizes before it. */
  function StrideOf(sizes: seq<nat>, i: nat): nat
    requires i <= |sizes|
  {
    Prod(sizes[..i])
  }

  lemma {:induction false} OneHotCounts(sizes: seq<nat>, i: nat)
    requires i < |sizes|
    ensures GroupSize(sizes, OneHot(|sizes|, i)) == sizes[i]
    ensures GroupCount(sizes, OneHot(|sizes|, i)) == StrideOf(sizes, i) * Prod(sizes[i + 1..])
    ensures Prod(sizes) == StrideOf(sizes, i) * (sizes[i] * Prod(sizes[i + 1..]))
  {
    SelectOneHot(sizes, i);
    assert [sizes[i]][1..] == [] && Prod([sizes[i]]) == sizes[i] * Prod([]);
    ProdConcat(sizes[..i], sizes[i + 1..]);
    assert sizes == sizes[..i] + sizes[i..] && sizes[i..][1..] == sizes[i + 1..];
    ProdConcat(sizes[..i], sizes[i..]);
  }

  lemma {:induction false} RankAtNone(sizes: seq<nat>, g: nat, k: nat)
    requires Positive(sizes) && g < Prod(sizes)
    ensures RankAt(sizes, OneHot(|sizes|, |sizes|), g, k) == g
  {
    if sizes != [] {
      assert OneHot(|sizes|, |sizes|)[1..] == OneHot(|sizes| - 1, |sizes| - 1);
      DivBound(g, sizes[0], Prod(sizes[1..]));
      RankAtNone(sizes[1..], g / sizes[0], k);
      DivModId(g, sizes[0]);
    }
  }

  /** The `k`-th rank of group `g` along a dimension of size `s` and stride `u`. */
  function Strided(u: nat, s: nat, g: nat, k: nat): nat
    requires 0 < u
  {
    g % u + u * (k + s * (g / u))
  }

  lemma {:induction false} OneHotRank(sizes: seq<nat>, i: nat, g: nat, k: nat)
    requires Positive(sizes) && i < |sizes| && k < sizes[i]
    requires g < StrideOf(sizes, i) * Prod(sizes[i + 1..])
    ensures 0 < StrideOf(sizes, i)
    ensures RankAt(sizes, OneHot(|sizes|, i), g, k) == Strided(StrideOf(sizes, i), sizes[i], g, k)
  {
    ProdPositive(sizes[..i]);
    if i == 0 {
      OneHotFirst(sizes, g, k);
    } else {
      var s, rest := sizes[0], sizes[1..];
      assert OneHot(|sizes|, i)[1..] == OneHot(|rest|, i - 1);
      OneHotBound(sizes, i, g);
      OneHotRank(rest, i - 1, g / s, k);
      StridedStep(s, StrideOf(rest, i - 1), sizes[i], g, k);
    }
  }

  lemma {:induction false} OneHotFirst(sizes: seq<nat>, g: nat, k: nat)
    requires Positive(sizes) && 0 < |sizes| && k < sizes[0] && g < Prod(sizes[1..])
    ensures StrideOf(sizes, 0) == 1
    ensures RankAt(sizes, OneHot(|sizes|, 0), g, k) == Strided(1, sizes[0], g, k)
  {
    var rest := sizes[1..];
    assert sizes[..0] == [] && OneHot(|sizes|, 0)[1..] == OneHot(|rest|, |rest|);
    RankAtNone(rest, g, k / sizes[0]);
    DivModUnique(k, sizes[0], 0, k);
  }

  lemma {:induction false} OneHotBound(sizes: seq<nat>, i: nat, g: nat)
    requires Positive(sizes) && 0 < i < |sizes| && g < StrideOf(sizes, i) * Prod(sizes[i + 1..])
    ensures StrideOf(sizes, i) == sizes[0] * StrideOf(sizes[1..], i - 1) && 0 < StrideOf(sizes[1..], i - 1)
    ensures g / sizes[0] < StrideOf(sizes[1..], i - 1) * Prod(sizes[1..][i..])
  {
    var s, rest := sizes[0], sizes[1..];
    assert sizes[..i][1..] == rest[..i - 1] && sizes[i + 1..] == rest[i..];
    ProdPositive(rest[..i - 1]);
    MulAssoc(s, StrideOf(rest, i - 1), Prod(rest[i..]));
    DivBound(g, s, StrideOf(rest, i - 1) * Prod(rest[i..]));
  }

  lemma StridedStep(s: nat, u: nat, n: nat, g: nat, k: nat)
    requires 0 < s && 0 < u
    ensures 0 < s * u && Strided(s * u, n, g, k) == g % s + s * Strided(u, n, g / s, k)
  {
    DivModProduct(g, s, u);
    var h := k + n * (g / s / u);
    MulAssoc(s, u, h);
    assert s * (g / s % u + u * h) == s * (g / s % u) + s * (u * h);
  }

  /** The named sizes of one level: `u` ranks below it, `s` on it, `l` above it. */
  function LevelShape(u: Pos, s: Pos, l: Pos): Shape {
    a => if a == "u" then u else if a == "s" then s else if a == "l" then l else 1
  }

  /** The pattern `(l s u) -> (l u) s` places flat index `Strided(u, s, row, col)` at `(row, col)`. */
  lemma {:induction false} LevelCell(u: Pos, s: Pos, l: Pos, row: nat, col: nat)
    requires row < u * l && col < s
    ensures CellIndex(["l", "s", "u"], ["l", "u"], ["s"], LevelShape(u, s, l), row, col) == Strided(u, s, row, col)
    ensures Size(["l", "s", "u"], LevelShape(u, s, l)) == u * (s * l)
    ensures Size(["l", "u"], LevelShape(u, s, l)) == u * l && Size(["s"], LevelShape(u, s, l)) == s
  {
    var shape := LevelShape(u, s, l);
    assert ["l", "s", "u"][..2] == ["l", "s"] && ["l", "s"][..1] == ["l"] && ["l", "u"][..1] == ["l"];
    assert ["l"][..0] == [] && ["s"][..0] == [];
    assert Size(["l"], shape) == l && Size(["s"], shape) == s;
    assert Size(["l", "s"], shape) == s * l;
    var idx := CellTuple(["l", "u"], ["s"], shape, row, col);
    DivModUnique(col, s, 0, col);
    assert idx("u") == row % u;
    assert idx("s") == col;
    DivBound(row, u, l);
    DivModUnique(row / u, l, 0, row / u);
    assert idx("l") == row / u;
    assert Ravel(["l"], shape, idx) == row / u;
    assert Ravel(["l", "s"], shape, idx) == col + s * (row / u);
  }

  function Above(sizes: seq<nat>, level: nat): nat
    requires level < |sizes|
  {
    Prod(sizes[level + 1..])
  }

  lemma {:induction false} LevelFactors(sizes: seq<nat>, level: nat)
    requires Positive(sizes) && level < |sizes|
    ensures 0 < StrideOf(sizes, level) && 0 < sizes[level] && 0 < Above(sizes, level)
    ensures Prod(sizes) == StrideOf(sizes, level) * (sizes[level] * Above(sizes, level))
  {
    ProdPositive(sizes[..level]);
    ProdPositive(sizes[level + 1..]);
    OneHotCounts(sizes, level);
  }

  lemma {:induction false} LevelSize(u: Pos, s: Pos, l: Pos)
    ensures Size(["l", "s", "u"], LevelShape(u, s, l)) == u * (s * l)
    ensures Size(["l", "u"], LevelShape(u, s, l)) == u * l && Size(["s"], LevelShape(u, s, l)) == s
  {
    assert 0 < u * l;
    LevelCell(u, s, l, 0, 0);
  }

  /** One level of the split: `rearrange(ranks, "(l s u) -> (l u) s")`. */
  function LevelGroups(ranks: seq<nat>, sizes: seq<nat>, level: nat): (groups: seq<seq<nat>>)
    requires Positive(sizes) && level < |sizes| && |ranks| == Prod(sizes)
  {
    LevelFactors(sizes, level);
    var u, s, l := StrideOf(sizes, level), sizes[level], Above(sizes, level);
    LevelSize(u, s, l);
    Rearrange(ranks, ["l", "s", "u"], ["l", "u"], ["s"], LevelShape(u, s, l))
  }

  /** `ranks[n]` for every entry `n` of a group. */
  function Pick(ranks: seq<nat>, group: seq<nat>): (r: seq<nat>)
    requires forall i :: 0 <= i < |group| ==> group[i] < |ranks|
    ensures |r| == |group|
  {
    seq(|group|, i requires 0 <= i < |group| => ranks[group[i]])
  }

  /** Every level is the enumeration along that one dimension, indexed into `ranks`. */
  lemma {:induction false} LevelIsOneHot(ranks: seq<nat>, sizes: seq<nat>, level: nat)
    requires Positive(sizes) && level < |sizes| && |ranks| == Prod(sizes)
    ensures var groups := AllGroups(sizes, OneHot(|sizes|, level));
            && |LevelGroups(ranks, sizes, level)| == |groups|
            && forall g :: 0 <= g < |groups| ==>
                 (forall i :: 0 <= i < |groups[g]| ==> groups[g][i] < |ranks|) &&
                 LevelGroups(ranks, sizes, level)[g] == Pick(ranks, groups[g])
  {
    LevelFactors(sizes, level);
    OneHotCounts(sizes, level);
    LevelSize(StrideOf(sizes, level), sizes[level], Above(sizes, level));
    var groups := AllGroups(sizes, OneHot(|sizes|, level));
    forall g | 0 <= g < |groups|
      ensures forall i :: 0 <= i < |groups[g]| ==> groups[g][i] < |ranks|
      ensures LevelGroups(ranks, sizes, level)[g] == Pick(ranks, groups[g])
    {
      LevelRow(ranks, sizes, level, g);
    }
  }

  lemma {:induction false} LevelRow(ranks: seq<nat>, sizes: seq<nat>, level: nat, g: nat)
    requires Positive(sizes) && level < |sizes| && |ranks| == Prod(sizes)
    requires g < StrideOf(sizes, level) * Above(sizes, level)
    ensures forall i :: 0 <= i < sizes[level] ==> RankAt(sizes, OneHot(|sizes|, level), g, i) < |ranks|
    ensures |LevelGroups(ranks, sizes, level)| == StrideOf(sizes, level) * Above(sizes, level)
    ensures GroupSize(sizes, OneHot(|sizes|, level)) == sizes[level]
    ensures LevelGroups(ranks, sizes, level)[g] == seq(sizes[level], i requires 0 <= i < sizes[level] => ranks[RankAt(sizes, OneHot(|sizes|, level), g, i)])
  {
    LevelFactors(sizes, level);
    OneHotCounts(sizes, level);
    var u, s, l := StrideOf(sizes, level), sizes[level], Above(sizes, level);
    LevelSize(u, s, l);
    forall i | 0 <= i < s
      ensures RankAt(sizes, OneHot(|sizes|, level), g, i) < |ranks|
      ensures CellIndex(["l", "s", "u"], ["l", "u"], ["s"], LevelShape(u, s, l), g, i) == RankAt(sizes, OneHot(|sizes|, level), g, i)
    {
      RankAtBound(sizes, OneHot(|sizes|, level), g, i);
      OneHotRank(sizes, level, g, i);
      LevelCell(u, s, l, g, i);
    }
  }

  /** Each member rank is in exactly one sub-group of every level. */
  lemma {:induction false} LevelMember(ranks: seq<nat>, sizes: seq<nat>, level: nat, n: nat, g: nat)
    requires Positive(sizes) && level < |sizes| && |ranks| == Prod(sizes) && NoRepeat(ranks) && n < |ranks|
    requires g < |LevelGroups(ranks, sizes, level)|
    ensures ranks[n] in LevelGroups(ranks, sizes, level)[g] <==> g == GroupOf(sizes, OneHot(|sizes|, level), n)
  {
    var groups := AllGroups(sizes, OneHot(|sizes|, level));
    LevelIsOneHot(ranks, sizes, level);
    MemberIff(sizes, OneHot(|sizes|, level), n);
    PickMember(ranks, groups[g], n);
  }

  lemma PickMember(ranks: seq<nat>, group: seq<nat>, n: nat)
    requires NoRepeat(ranks) && n < |ranks| && forall i :: 0 <= i < |group| ==> group[i] < |ranks|
    ensures ranks[n] in Pick(ranks, group) <==> n in group
  {
    if ranks[n] in Pick(ranks, group) {
      var i :| 0 <= i < |group| && ranks[group[i]] == ranks[n];
      assert group[i] == n;
    }
    if n in group {
      var i :| 0 <= i < |group| && group[i] == n;
      assert Pick(ranks, group)[i] == ranks[n];
    }
  }

  /** The groups that contain `rank`, in order. */
  function Containing(groups: seq<seq<nat>>, rank: nat): seq<seq<nat>> {
    if groups == [] then []
    else
      var n := |groups| - 1;
      Containing(groups[..n], rank) + if rank in groups[n] then [groups[n]] else []
  }

  lemma {:induction false} ContainingNone(groups: seq<seq<nat>>, rank: nat)
    requires forall g :: 0 <= g < |groups| ==> rank !in groups[g]
    ensures Containing(groups, rank) == []
  {
    if groups != [] {
      ContainingNone(groups[..|groups| - 1], rank);
    }
  }

  lemma {:induction false} ContainingOne(groups: seq<seq<nat>>, rank: nat, h: nat)
    requires h < |groups| && forall g :: 0 <= g < |groups| ==> (rank in groups[g] <==> g == h)
    ensures Containing(groups, rank) == [groups[h]]
  {
    var n := |groups| - 1;
    if h == n {
      ContainingNone(groups[..n], rank);
    } else {
      ContainingOne(groups[..n], rank, h);
    }
  }

  /** The sub-group of `ranks[n]` on one level. */
  ghost function OwnGroup(ranks: seq<nat>, sizes: seq<nat>, level: nat, n: nat): (group: seq<nat>)
    requires Positive(sizes) && level < |sizes| && |ranks| == Prod(sizes) && n < |ranks|
  {
    var h := GroupOf(sizes, OneHot(|sizes|, level), n);
    PartBound(sizes, OneHot(|sizes|, level), false, n);
    LevelIsOneHot(ranks, sizes, level);
    LevelGroups(ranks, sizes, level)[h]
  }

  lemma {:induction false} LevelContaining(ranks: seq<nat>, sizes: seq<nat>, level: nat, rank: nat)
    requires Positive(sizes) && level < |sizes| && |ranks| == Prod(sizes) && NoRepeat(ranks)
    ensures rank !in ranks ==> Containing(LevelGroups(ranks, sizes, level), rank) == []
    ensures forall n :: 0 <= n < |ranks| && ranks[n] == rank ==>
              Containing(LevelGroups(ranks, sizes, level), rank) == [OwnGroup(ranks, sizes, level, n)]
  {
    var groups := LevelGroups(ranks, sizes, level);
    LevelIsOneHot(ranks, sizes, level);
    if rank !in ranks {
      ContainingNone(groups, rank);
    } else {
      var n :| 0 <= n < |ranks| && ranks[n] == rank;
      var h := GroupOf(sizes, OneHot(|sizes|, level), n);
      PartBound(sizes, OneHot(|sizes|, level), false, n);
      forall g | 0 <= g < |groups|
        ensures rank in groups[g] <==> g == h
      {
        LevelMember(ranks, sizes, level, n, g);
      }
      ContainingOne(groups, rank, h);
    }
  }

  /** `create_hierarchical_groups`: the sub-groups `rank` joins, one per level. Distinct ranks whose
      number is the product of the level sizes never trip the closing assertion. */
  method CreateHierarchicalGroups(rank: nat, ranks: seq<nat>, sizes: seq<nat>) returns (r: Result<seq<seq<nat>>>)
    requires Positive(sizes)
    ensures sizes != [] && |ranks| != Prod(sizes) ==> r.Err?
    ensures NoRepeat(ranks) && |ranks| == Prod(sizes) ==> r.Ok? && |r.value| == if rank in ranks then |sizes| else 0
    ensures NoRepeat(ranks) && |ranks| == Prod(sizes) ==>
              forall n, level :: 0 <= n < |ranks| && ranks[n] == rank && 0 <= level < |sizes| ==>
                r.value[level] == OwnGroup(ranks, sizes, level, n)
  {
    var groups: seq<seq<nat>> := [];
    if sizes != [] && |ranks| != Prod(sizes) {
      return Err;
    }
    for level := 0 to |sizes|
      invariant NoRepeat(ranks) ==> |groups| == if rank in ranks then level else 0
      invariant NoRepeat(ranks) ==> forall n, v :: 0 <= n < |ranks| && ranks[n] == rank && 0 <= v < level ==>
                  groups[v] == OwnGroup(ranks, sizes, v, n)
    {
      var subGroups := CollectGroups(rank, LevelGroups(ranks, sizes, level));
      if NoRepeat(ranks) {
        LevelContaining(ranks, sizes, level, rank);
      }
      groups := groups + subGroups;
    }
    if rank in ranks && |groups| != |sizes| {
      return Err;
    }
    r := Ok(groups);
  }

  method CollectGroups(rank: nat, subRanks: seq<seq<nat>>) returns (groups: seq<seq<nat>>)
    ensures groups == Containing(subRanks, rank)
  {
    groups := [];
    for g := 0 to |subRanks|
      invariant groups == Containing(subRanks[..g], rank)
    {
      assert subRanks[..g + 1][..g] == subRanks[..g];
      if rank in subRanks[g] {
        groups := groups + [subRanks[g]];
      }
    }
    assert subRanks[..|subRanks|] == subRanks;
  }
}
