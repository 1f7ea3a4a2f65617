/** The optimizer-instance groups a rank gets under the default order, from the size checks to the groups. */
module OptimizerGroups {
  import opened Arith
  import opened MixedRadix
  import opened RankGroups
  import opened Sequences
  import opened Hierarchy
  import opened RankGenerator
  import opened ModelParallel
  import opened OptimizerInstances
  import opened InterGroups

  // ---- The loops over groups ----

  lemma ChunkBound(q: nat, n: nat, i: nat)
    requires i < n
    ensures q * i + q <= q * n
  {
    MulMono(i + 1, n, q);
    assert q * (i + 1) == q * i + q;
  }

  /** The `i`-th of `n` consecutive pieces of a group. */
  function Chunk(group: seq<nat>, q: nat, n: nat, i: nat): seq<nat>
    requires |group| == q * n && i < n
  {
    ChunkBound(q, n, i);
    group[q * i..q * i + q]
  }

  ghost predicate AllSized(groups: seq<seq<nat>>, size: nat) {
    forall g :: 0 <= g < |groups| ==> |groups[g]| == size && NoRepeat(groups[g])
  }

  /** The rank is in one piece of one group only. */
  ghost predicate OnlyIn(groups: seq<seq<nat>>, q: nat, n: nat, rank: nat, g0: nat, i0: nat)
    requires AllSized(groups, q * n)
  {
    forall g, i :: 0 <= g < |groups| && 0 <= i < n ==> (rank in Chunk(groups[g], q, n, i) <==> g == g0 && i == i0)
  }

  /** The rank is at one position of one group only. */
  ghost predicate OnlyAt(groups: seq<seq<nat>>, rank: nat, g0: nat, p0: nat) {
    && g0 < |groups| && p0 < |groups[g0]| && groups[g0][p0] == rank
    && (forall g :: 0 <= g < |groups| ==> (rank in groups[g] <==> g == g0))
  }

  /** Which piece of one group holds the rank, if any does. */
  method ChunkIn(group: seq<nat>, q: nat, n: nat, rank: nat, before: seq<nat>, ghost hit: bool, ghost i0: nat)
    returns (chunk: seq<nat>)
    requires |group| == q * n && i0 < n
    requires forall i :: 0 <= i < n ==> (rank in Chunk(group, q, n, i) <==> hit && i == i0)
    ensures chunk == if hit then Chunk(group, q, n, i0) else before
  {
    chunk := before;
    for i := 0 to n
      invariant chunk == if hit && i0 < i then Chunk(group, q, n, i0) else before
    {
      var piece := Chunk(group, q, n, i);
      if rank in piece {
        chunk := piece;
      }
    }
  }

  /** The loop over the dp-cp groups: every group is cut into slices, and the rank keeps the slice it is in. */
  method AttentionLoop(groups: seq<seq<nat>>, q: nat, n: nat, rank: nat, ghost g0: nat, ghost i0: nat) returns (chunk: seq<nat>)
    requires g0 < |groups| && i0 < n && AllSized(groups, q * n) && OnlyIn(groups, q, n, rank, g0, i0)
    ensures chunk == Chunk(groups[g0], q, n, i0)
  {
    chunk := [];
    for g := 0 to |groups|
      invariant g0 < g ==> chunk == Chunk(groups[g0], q, n, i0)
    {
      chunk := ChunkIn(groups[g], q, n, rank, chunk, g == g0, i0);
    }
  }

  /** The loop over the expert dp groups: every group is split into two levels, and the rank keeps its sub-group
      of either level. */
  method ExpertLoop(groups: seq<seq<nat>>, k: nat, n: nat, rank: nat, ghost g0: nat, ghost p0: nat)
    returns (intra: seq<nat>, inter: seq<nat>)
    requires 0 < k && 0 < n && Prod([k, n]) == k * n
    requires AllSized(groups, k * n) && OnlyAt(groups, rank, g0, p0)
    ensures intra == OwnGroup(groups[g0], [k, n], 0, p0) && inter == OwnGroup(groups[g0], [k, n], 1, p0)
  {
    intra, inter := [], [];
    for g := 0 to |groups|
      invariant g0 < g ==> intra == OwnGroup(groups[g0], [k, n], 0, p0) && inter == OwnGroup(groups[g0], [k, n], 1, p0)
    {
      var levels := CreateHierarchicalGroups(rank, groups[g], [k, n]);
      if rank in groups[g] {
        intra, inter := levels.value[0], levels.value[1];
      }
    }
  }

  // ---- What the groups look like ----

  lemma {:induction false} PieceOf(group: seq<nat>, q: nat, n: nat, p: nat, i: nat)
    requires 0 < q && |group| == q * n && NoRepeat(group) && p < q * n && i < n
    ensures group[p] in Chunk(group, q, n, i) <==> i == p / q
  {
    ChunkBound(q, n, i);
    DivModId(p, q);
    var piece := Chunk(group, q, n, i);
    if i == p / q {
      assert piece[p % q] == group[p];
    } else if group[p] in piece {
      var j :| 0 <= j < q && piece[j] == group[p];
      assert group[q * i + j] == group[p];
      DivModUnique(p, q, i, j);
    }
  }

  lemma IncreasingNoRepeat(s: seq<nat>)
    requires StrictlyIncreasing(s)
    ensures NoRepeat(s)
  {
  }

  /** The members are in the instance of the rank. */
  ghost predicate InOwnInstance(instances: seq<seq<nat>>, rank: nat, members: seq<nat>) {
    forall i, x :: 0 <= i < |instances| && rank in instances[i] && x in members ==> x in instances[i]
  }

  /** The optimizer instances hold every rank of the world at exactly one place. */
  lemma {:induction false} InstancesPartition(t: Cut)
    requires t.Consistent()
    ensures |InstanceLists(t)| == t.n && Partitions(InstanceLists(t), t.World())
  {
    var lists := InstanceLists(t);
    ShapesMultiply(t);
    InstancesPartitionWorld(t, 0, 0);
    forall r: nat, g, k, g', k' | At(lists, g, k, r) && At(lists, g', k', r)
      ensures g == g' && k == k'
    {
      InstancesPartitionWorld(t, g, r);
      InstancesPartitionWorld(t, g', r);
    }
    forall r: nat
      ensures r < t.World() <==> Occurs(lists, r)
    {
      if r < t.World() {
        RankStaysInInstance(t, r, r);
        var i := Inst(r, t.Stage(), t.Block());
        var k :| 0 <= k < |lists[i]| && lists[i][k] == r;
        assert At(lists, i, k, r);
      }
      if g, k :| At(lists, g, k, r) {
        InstancesPartitionWorld(t, g, r);
      }
    }
  }

  lemma PieceElsewhere(group: seq<nat>, q: nat, n: nat, x: nat, i: nat)
    requires |group| == q * n && i < n && x !in group
    ensures x !in Chunk(group, q, n, i)
  {
    ChunkBound(q, n, i);
  }

  lemma {:induction false} OnlyPiece(groups: seq<seq<nat>>, q: nat, n: nat, rank: nat, g0: nat, p0: nat, i0: nat)
    requires 0 < q && AllSized(groups, q * n) && OnlyAt(groups, rank, g0, p0) && i0 == p0 / q
    ensures OnlyIn(groups, q, n, rank, g0, i0)
  {
    forall g, i | 0 <= g < |groups| && 0 <= i < n
      ensures rank in Chunk(groups[g], q, n, i) <==> g == g0 && i == i0
    {
      if g == g0 {
        PieceOf(groups[g], q, n, p0, i);
      } else {
        PieceElsewhere(groups[g], q, n, rank, i);
      }
    }
  }

  /** The groups of a factorisation under a mask: all of one size, and a rank at its position only. */
  lemma {:induction false} GroupsOfMask(sizes: seq<nat>, mask: seq<bool>, rank: nat)
    requires |sizes| == |mask| && Positive(sizes) && rank < Prod(sizes)
    ensures AllSized(AllGroups(sizes, mask), GroupSize(sizes, mask))
    ensures OnlyAt(AllGroups(sizes, mask), rank, GroupOf(sizes, mask, rank), PosOf(sizes, mask, rank))
  {
    MemberIff(sizes, mask, rank);
    AtIff(sizes, mask, GroupOf(sizes, mask, rank), PosOf(sizes, mask, rank), rank);
    GroupsPartitionWorld(sizes, mask);
    forall g | 0 <= g < GroupCount(sizes, mask)
      ensures NoRepeat(AllGroups(sizes, mask)[g])
    {
      IncreasingNoRepeat(AllGroups(sizes, mask)[g]);
    }
  }

  lemma {:induction false} ChunkIsAttention(t: Cut, rank: nat)
    requires t.Consistent() && rank < t.World()
    ensures var p := PosOf(t.DecoderShape(), DP_CP, rank);
            Positive(t.DecoderShape()) && |AttentionGroup(t, rank)| == t.q * t.n && p / t.q < t.n
            && Chunk(AttentionGroup(t, rank), t.q, t.n, p / t.q) == AttentionChunk(t, rank)
  {
    InstancesAgree(t, rank);
    ProdTwo(t.q, t.n);
    DivBound(PosOf(t.DecoderShape(), DP_CP, rank), t.q, t.n);
  }

  method BuildChunk(ghost t: Cut, q: nat, n: nat, dpCp: seq<seq<nat>>, rank: nat) returns (chunk: seq<nat>)
    requires t.Consistent() && rank < t.World() && q == t.q && n == t.n
    requires Positive(t.DecoderShape()) && dpCp == AllGroups(t.DecoderShape(), DP_CP)
    ensures chunk == AttentionChunk(t, rank)
  {
    ghost var g0, p0 := GroupOf(t.DecoderShape(), DP_CP, rank), PosOf(t.DecoderShape(), DP_CP, rank);
    ChunkReady(t, rank, dpCp, g0, p0, p0 / q);
    chunk := AttentionLoop(dpCp, q, n, rank, g0, p0 / q);
  }

  lemma {:induction false} ChunkReady(t: Cut, rank: nat, dpCp: seq<seq<nat>>, g0: nat, p0: nat, i0: nat)
    requires t.Consistent() && rank < t.World() && Positive(t.DecoderShape()) && dpCp == AllGroups(t.DecoderShape(), DP_CP)
    requires g0 == GroupOf(t.DecoderShape(), DP_CP, rank) && p0 == PosOf(t.DecoderShape(), DP_CP, rank) && i0 == p0 / t.q
    ensures g0 < |dpCp| && i0 < t.n && AllSized(dpCp, t.q * t.n) && OnlyIn(dpCp, t.q, t.n, rank, g0, i0)
    ensures Chunk(dpCp[g0], t.q, t.n, i0) == AttentionChunk(t, rank)
  {
    ShapesMultiply(t);
    DecoderCounts(t);
    GroupsOfMask(t.DecoderShape(), DP_CP, rank);
    OnlyPiece(dpCp, t.q, t.n, rank, g0, p0, i0);
    ChunkIsAttention(t, rank);
  }

  method BuildLevels(ghost t: Cut, k: nat, n: nat, dp: seq<seq<nat>>, rank: nat) returns (intra: seq<nat>, inter: seq<nat>)
    requires t.Consistent() && rank < t.World() && k == t.k && n == t.n
    requires Positive(t.ExpertShape()) && dp == AllGroups(t.ExpertShape(), EXPERT_DP)
    ensures intra == ExpertIntra(t, rank)
    ensures |ExpertGroup(t, rank)| == Prod([k, n]) && PosOf(t.ExpertShape(), EXPERT_DP, rank) < |ExpertGroup(t, rank)|
    ensures inter == OwnGroup(ExpertGroup(t, rank), [k, n], 1, PosOf(t.ExpertShape(), EXPERT_DP, rank))
  {
    ShapesMultiply(t);
    ExpertSize(t);
    ProdTwo(k, n);
    InstancesAgree(t, rank);
    GroupsOfMask(t.ExpertShape(), EXPERT_DP, rank);
    intra, inter := ExpertLoop(dp, k, n, rank, GroupOf(t.ExpertShape(), EXPERT_DP, rank), PosOf(t.ExpertShape(), EXPERT_DP, rank));
  }

  lemma ExpertSize(t: Cut)
    requires t.Consistent()
    ensures GroupSize(t.ExpertShape(), EXPERT_DP) == t.k * t.n
  {
    assert EXPERT_DP == OneHot(5, 3);
    OneHotCounts(t.ExpertShape(), 3);
  }

  lemma DefaultCovers(c: Config)
    requires c.order == DEFAULT_ORDER && c.Valid() && c.Divides()
    ensures NoRepeat(c.order) && Completed(c.order, TOKENS) == DEFAULT_ORDER && c.PpLast()
    ensures Covers(c.Decoder(), c.order) && Covers(c.Expert(), c.order)
  {
    var o := DEFAULT_ORDER;
    assert o[0] == Tp && o[1] == Cp && o[2] == Ep && o[3] == Dp && o[4] == Pp;
    forall d: Dim
      ensures d in o
    {
      match d
      case Tp =>
      case Cp =>
      case Ep =>
      case Dp =>
      case Pp =>
    }
  }

  /** The groups of the two generators, after the size checks. */
  method GeneratorGroups(c: Config, n: nat) returns (dpCp: seq<seq<nat>>, dp: seq<seq<nat>>, model: seq<seq<nat>>)
    requires Accepted(c, n)
    ensures var t := CutOf(c, n);
            && t.Consistent() && Positive(t.DecoderShape()) && Positive(t.ExpertShape())
            && dpCp == AllGroups(t.DecoderShape(), DP_CP) && dp == AllGroups(t.ExpertShape(), EXPERT_DP) && model == ModelGroups(t)
  {
    DefaultCovers(c);
    CutConsistent(c, n);
    ShapesMultiply(CutOf(c, n));
    BothFactorTheWorld(c);
    DefaultMasks();
    var generators := BuildGenerators(c);
    var (decoder, expert) := generators.value;
    dpCp := Ranks(decoder, [Dp, Cp]);
    dp := Ranks(expert, [Dp]);
    model := Ranks(expert, [Tp, Ep, Pp]);
  }

  method Ranks(gen: Generator, tokens: seq<Dim>) returns (r: seq<seq<nat>>)
    requires gen.sizes.AllPositive() && NoRepeat(gen.order) && Prod(OrderedSizes(gen.sizes, gen.order)) == gen.sizes.World() && gen.rankOffset == 0
    requires forall i :: 0 <= i < |tokens| ==> tokens[i] in gen.order
    ensures Positive(OrderedSizes(gen.sizes, gen.order)) && r == AllGroups(OrderedSizes(gen.sizes, gen.order), MaskFor(gen.order, tokens))
  {
    var ranks := GetRanks(gen, tokens);
    ShiftZero(AllGroups(OrderedSizes(gen.sizes, gen.order), MaskFor(gen.order, tokens)));
    r := ranks.value;
  }

  lemma {:induction false} InterIsShared(c: Config, n: nat, rank: nat)
    requires Accepted(c, n) && rank < c.world
    ensures CutOf(c, n).Consistent() && CutOf(c, n).World() == c.world
    ensures Cuttable(DEFAULT_ORDER, c.Decoder(), c.Expert(), n) && Prod(OrderedSizes(c.Decoder(), DEFAULT_ORDER)) == c.world
    ensures var t := CutOf(c, n);
            && |ExpertGroup(t, rank)| == Prod([t.k, n]) && PosOf(t.ExpertShape(), EXPERT_DP, rank) < |ExpertGroup(t, rank)|
            && OwnGroup(ExpertGroup(t, rank), [t.k, n], 1, PosOf(t.ExpertShape(), EXPERT_DP, rank))
            == AttentionInter(DEFAULT_ORDER, c.Decoder(), c.Expert(), n, rank)
  {
    var t := CutOf(c, n);
    CutConsistent(c, n);
    DefaultCovers(c);
    InstancedCuttable(c, n, DEFAULT_ORDER);
    DefaultMasks();
    InstancesAgree(t, rank);
  }

  /** The groups a rank gets for the distributed optimizer under the default order, for every accepted
      configuration: the instances partition the world, the rank's attention chunk and its expert
      intra-instance group lie in its own instance, and its inter-instance group is the one its attention
      dp-cp group would give. */
  method InstanceGroups(c: Config, n: nat, rank: nat)
    returns (instances: seq<seq<nat>>, chunk: seq<nat>, intra: seq<nat>, inter: seq<nat>)
    requires Accepted(c, n) && rank < c.world
    ensures CutOf(c, n).Consistent() && CutOf(c, n).World() == c.world
    ensures chunk == AttentionChunk(CutOf(c, n), rank) && intra == ExpertIntra(CutOf(c, n), rank)
    ensures |instances| == n && Partitions(instances, c.world)
    ensures InOwnInstance(instances, rank, chunk) && InOwnInstance(instances, rank, intra)
    ensures Cuttable(DEFAULT_ORDER, c.Decoder(), c.Expert(), n) && Prod(OrderedSizes(c.Decoder(), DEFAULT_ORDER)) == c.world
    ensures inter == AttentionInter(DEFAULT_ORDER, c.Decoder(), c.Expert(), n, rank)
  {
    var dpCp, dp, model := GeneratorGroups(c, n);
    CutConsistent(c, n);
    InterIsShared(c, n, rank);
    instances, chunk, intra, inter := BuildGroups(CutOf(c, n), c.Decoder().dp * c.cp / n, c.Expert().dp / n, n, dpCp, dp, model, rank);
  }

  method BuildGroups(ghost t: Cut, q: nat, k: nat, n: nat, dpCp: seq<seq<nat>>, dp: seq<seq<nat>>, model: seq<seq<nat>>, rank: nat)
    returns (instances: seq<seq<nat>>, chunk: seq<nat>, intra: seq<nat>, inter: seq<nat>)
    requires t.Consistent() && rank < t.World() && q == t.q && k == t.k && n == t.n
    requires Positive(t.DecoderShape()) && Positive(t.ExpertShape())
    requires dpCp == AllGroups(t.DecoderShape(), DP_CP) && dp == AllGroups(t.ExpertShape(), EXPERT_DP) && model == ModelGroups(t)
    ensures chunk == AttentionChunk(t, rank) && intra == ExpertIntra(t, rank)
    ensures |instances| == n && Partitions(instances, t.World())
    ensures InOwnInstance(instances, rank, chunk) && InOwnInstance(instances, rank, intra)
    ensures |ExpertGroup(t, rank)| == Prod([k, n]) && PosOf(t.ExpertShape(), EXPERT_DP, rank) < |ExpertGroup(t, rank)|
    ensures inter == OwnGroup(ExpertGroup(t, rank), [k, n], 1, PosOf(t.ExpertShape(), EXPERT_DP, rank))
  {
    chunk := BuildChunk(t, q, n, dpCp, rank);
    intra, inter := BuildLevels(t, k, n, dp, rank);
    instances := BuildInstances(model, k);
    OwnInstance(t, rank);
    OwnMembers(t, rank, instances, chunk);
    OwnMembers(t, rank, instances, intra);
    InstancesPartition(t);
  }

  ghost predicate SameInstance(t: Cut, rank: nat, members: seq<nat>)
    requires 0 < t.Stage() && 0 < t.Block()
  {
    forall x :: x in members ==> x < t.World() && Inst(x, t.Stage(), t.Block()) == Inst(rank, t.Stage(), t.Block())
  }

  lemma {:induction false} OwnMembers(t: Cut, rank: nat, instances: seq<seq<nat>>, members: seq<nat>)
    requires t.Consistent() && instances == InstanceLists(t) && 0 < t.Stage() && 0 < t.Block() && SameInstance(t, rank, members)
    ensures |instances| == t.n && InOwnInstance(instances, rank, members)
  {
    ShapesMultiply(t);
    InstancesPartitionWorld(t, 0, 0);
    forall i, x | 0 <= i < |instances| && rank in instances[i] && x in members
      ensures x in instances[i]
    {
      InstancesPartitionWorld(t, i, rank);
      InstancesPartitionWorld(t, i, x);
    }
  }

  lemma {:induction false} OwnInstance(t: Cut, rank: nat)
    requires t.Consistent() && rank < t.World()
    ensures 0 < t.Stage() && 0 < t.Block()
    ensures SameInstance(t, rank, AttentionChunk(t, rank)) && SameInstance(t, rank, ExpertIntra(t, rank))
  {
    InstancesAgree(t, rank);
  }
}
