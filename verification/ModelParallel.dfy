/** The size checks and pipeline groups of `initialize_model_parallel`: the attention layers and the
    expert layers factor the same world differently, and must agree on the pipeline groups. */
module ModelParallel {
  import opened Arith
  import opened MixedRadix
  import opened RankGroups
  import opened Sequences
  import opened Hierarchy
  import opened RankGenerator

  /** Groups along one dimension of two factorisations of the same world are the same lists exactly
      when the dimension is trivial or has the same stride in both. */
  lemma {:induction false} OneHotGroupsEqualIff(a: seq<nat>, i: nat, b: seq<nat>, j: nat)
    requires Positive(a) && Positive(b) && i < |a| && j < |b|
    requires Prod(a) == Prod(b) && a[i] == b[j]
    ensures AllGroups(a, OneHot(|a|, i)) == AllGroups(b, OneHot(|b|, j)) <==>
            a[i] == 1 || StrideOf(a, i) == StrideOf(b, j)
  {
    SameCount(a, i, b, j);
    OneHotCounts(a, i);
    OneHotCounts(b, j);
    var ga, gb := AllGroups(a, OneHot(|a|, i)), AllGroups(b, OneHot(|b|, j));
    if a[i] == 1 || StrideOf(a, i) == StrideOf(b, j) {
      forall g | 0 <= g < |ga|
        ensures ga[g] == gb[g]
      {
        forall k | 0 <= k < a[i]
          ensures ga[g][k] == gb[g][k]
        {
          SameEntry(a, i, b, j, g, k);
        }
      }
    } else {
      FirstStep(a, i);
      FirstStep(b, j);
    }
  }

  lemma {:induction false} SameCount(a: seq<nat>, i: nat, b: seq<nat>, j: nat)
    requires Positive(a) && Positive(b) && i < |a| && j < |b|
    requires Prod(a) == Prod(b) && a[i] == b[j]
    ensures GroupCount(a, OneHot(|a|, i)) == GroupCount(b, OneHot(|b|, j))
    ensures 0 < GroupCount(a, OneHot(|a|, i))
  {
    GroupCountOfWorld(a, OneHot(|a|, i));
    GroupCountOfWorld(b, OneHot(|b|, j));
    OneHotCounts(a, i);
    OneHotCounts(b, j);
    CountsPositive(a, OneHot(|a|, i));
  }

  lemma {:induction false} SameEntry(a: seq<nat>, i: nat, b: seq<nat>, j: nat, g: nat, k: nat)
    requires Positive(a) && Positive(b) && i < |a| && j < |b| && a[i] == b[j] && k < a[i]
    requires g < StrideOf(a, i) * Prod(a[i + 1..]) && g < StrideOf(b, j) * Prod(b[j + 1..])
    requires a[i] == 1 || StrideOf(a, i) == StrideOf(b, j)
    ensures RankAt(a, OneHot(|a|, i), g, k) == RankAt(b, OneHot(|b|, j), g, k)
  {
    OneHotRank(a, i, g, k);
    OneHotRank(b, j, g, k);
    if a[i] == 1 {
      TrivialStride(StrideOf(a, i), g);
      TrivialStride(StrideOf(b, j), g);
    }
  }

  lemma TrivialStride(u: nat, g: nat)
    requires 0 < u
    ensures Strided(u, 1, g, 0) == g
  {
    DivModId(g, u);
  }

  /** The second rank of the first group is the stride. */
  lemma {:induction false} FirstStep(a: seq<nat>, i: nat)
    requires Positive(a) && i < |a| && 1 < a[i]
    ensures 0 < GroupCount(a, OneHot(|a|, i)) && GroupSize(a, OneHot(|a|, i)) == a[i]
    ensures AllGroups(a, OneHot(|a|, i))[0][1] == StrideOf(a, i)
  {
    CountsPositive(a, OneHot(|a|, i));
    OneHotCounts(a, i);
    OneHotRank(a, i, 0, 1);
    DivModUnique(0, StrideOf(a, i), 0, 0);
  }

  /** The sizes a job asks for: attention (tp, cp, pp) and expert (etp, ep, pp) sides of one world. */
  datatype Config = Config(world: nat, tp: nat, pp: nat, cp: nat, ep: nat, etp: nat, order: seq<Dim>) {
    predicate Valid() {
      0 < world && 0 < tp && 0 < pp && 0 < cp && 0 < ep && 0 < etp
    }

    predicate Divides()
      requires Valid()
    {
      0 < tp * pp * cp && 0 < etp * ep * pp && world % (tp * pp * cp) == 0 && world % (etp * ep * pp) == 0
    }

    function Decoder(): Sizes
      requires Valid() && Divides()
    {
      Sizes(tp, 1, world / (tp * pp * cp), pp, cp)
    }

    function Expert(): Sizes
      requires Valid() && Divides()
    {
      Sizes(etp, ep, world / (etp * ep * pp), pp, 1)
    }

    predicate PpLast() {
      order != [] && order[|order| - 1] == Pp
    }
  }

  lemma ExactQuotient(w: nat, m: nat)
    requires 0 < w && 0 < m && w % m == 0
    ensures 0 < w / m && m * (w / m) == w
  {
    DivModId(w, m);
    assert m * 0 == 0;
  }

  /** Both factorisations have positive sizes and multiply back to the world size. */
  lemma {:induction false} BothFactorTheWorld(c: Config)
    requires c.Valid() && c.Divides()
    ensures c.Decoder().AllPositive() && c.Decoder().World() == c.world
    ensures c.Expert().AllPositive() && c.Expert().World() == c.world
    ensures c.Decoder().tp == c.tp && c.Decoder().cp == c.cp && c.Decoder().pp == c.pp && c.Decoder().ep == 1
    ensures c.Expert().tp == c.etp && c.Expert().ep == c.ep && c.Expert().pp == c.pp && c.Expert().cp == 1
  {
    ExactQuotient(c.world, c.tp * c.pp * c.cp);
    ExactQuotient(c.world, c.etp * c.ep * c.pp);
    Rearranged(c.tp, c.world / (c.tp * c.pp * c.cp), c.pp, c.cp, 1);
    Rearranged(c.etp, c.world / (c.etp * c.ep * c.pp), c.pp, 1, c.ep);
  }

  lemma Rearranged(a: nat, b: nat, c: nat, d: nat, e: nat)
    ensures a * b * c * d * e == a * c * d * e * b
    ensures a * b * c * d * e == a * e * c * d * b
  {
    var x := c * d;
    assert a * b * c * d * e == a * b * (c * d) * e by {
      MulAssoc(a * b, c, d);
    }
    assert a * c * d == a * x by {
      MulAssoc(a, c, d);
    }
    assert a * e * c * d == a * e * x by {
      MulAssoc(a * e, c, d);
    }
    assert a * b * x * e == a * x * e * b;
    assert a * b * x * e == a * e * x * b;
  }

  /** Where the pipeline dimension sits once the order is completed. */
  function PpIndex(order: seq<Dim>): (i: nat)
    ensures i < |Completed(order, TOKENS)| && Completed(order, TOKENS)[i] == Pp
  {
    AllTokens();
    CompletedProperties(order, TOKENS);
    IndexOf(Completed(order, TOKENS), Pp)
  }

  lemma PpMaskIsOneHot(full: seq<Dim>, i: nat)
    requires NoRepeat(full) && i < |full| && full[i] == Pp
    ensures MaskFor(full, [Pp]) == OneHot(|full|, i)
  {
    forall j | 0 <= j < |full|
      ensures full[j] in [Pp] <==> j == i
    {
      assert j < i || i < j ==> full[j] != full[i];
    }
  }

  lemma {:induction false} GroupsAgreeIff(decoder: Sizes, expert: Sizes, full: seq<Dim>, i: nat)
    requires decoder.AllPositive() && expert.AllPositive() && decoder.pp == expert.pp
    requires NoRepeat(full) && i < |full| && full[i] == Pp
    requires Prod(OrderedSizes(decoder, full)) == Prod(OrderedSizes(expert, full))
    ensures AllGroups(OrderedSizes(decoder, full), MaskFor(full, [Pp])) == AllGroups(OrderedSizes(expert, full), MaskFor(full, [Pp])) <==>
            decoder.pp == 1 || StrideOf(OrderedSizes(decoder, full), i) == StrideOf(OrderedSizes(expert, full), i)
  {
    PpMaskIsOneHot(full, i);
    OneHotGroupsEqualIff(OrderedSizes(decoder, full), i, OrderedSizes(expert, full), i);
  }

  /** Product of the sizes that vary faster than the pipeline dimension. */
  ghost function PpStride(sizes: Sizes, order: seq<Dim>): nat {
    StrideOf(OrderedSizes(sizes, Completed(order, TOKENS)), PpIndex(order))
  }

  /** The pipeline groups a generator lists. */
  ghost function PipelineGroups(sizes: Sizes, order: seq<Dim>): seq<seq<nat>>
    requires sizes.AllPositive()
  {
    var full := Completed(order, TOKENS);
    AllGroups(OrderedSizes(sizes, full), MaskFor(full, [Pp]))
  }

  /** Attention and expert pipeline groups coincide exactly when there is no pipeline parallelism or
      both sides place the same number of ranks below the pipeline dimension. */
  lemma {:induction false} PipelineGroupsAgreeIff(c: Config)
    requires c.Valid() && c.Divides() && NoRepeat(c.order)
    requires c.Decoder().AllPositive() && c.Expert().AllPositive()
    ensures PipelineGroups(c.Decoder(), c.order) == PipelineGroups(c.Expert(), c.order) <==>
            c.pp == 1 || PpStride(c.Decoder(), c.order) == PpStride(c.Expert(), c.order)
  {
    BothFactorTheWorld(c);
    OrderedSizesMultiply(c.Decoder(), c.order);
    OrderedSizesMultiply(c.Expert(), c.order);
    CompletedProperties(c.order, TOKENS);
    GroupsAgreeIff(c.Decoder(), c.Expert(), Completed(c.order, TOKENS), PpIndex(c.order));
  }

  /** Tokens left out of the order have size 1 on both sides. */
  ghost predicate Covers(sizes: Sizes, order: seq<Dim>) {
    forall d :: d !in order ==> sizes.Of(d) == 1
  }

  lemma {:induction false} ProdOnes(sizes: seq<nat>)
    requires forall i :: 0 <= i < |sizes| ==> sizes[i] == 1
    ensures Prod(sizes) == 1
  {
    if sizes != [] {
      ProdOnes(sizes[1..]);
    }
  }

  /** With the pipeline dimension last, only trivial dimensions are appended after it. */
  lemma {:induction false} PpLastStride(sizes: Sizes, order: seq<Dim>)
    requires sizes.AllPositive() && NoRepeat(order) && Covers(sizes, order)
    requires order != [] && order[|order| - 1] == Pp
    ensures PpStride(sizes, order) * sizes.pp == sizes.World()
  {
    CompletedProperties(order, TOKENS);
    OrderedSizesMultiply(sizes, order);
    LastStride(sizes, order, Completed(order, TOKENS), PpIndex(order));
  }

  lemma {:induction false} LastStride(sizes: Sizes, order: seq<Dim>, full: seq<Dim>, i: nat)
    requires Covers(sizes, order) && order <= full && NoRepeat(full)
    requires order != [] && order[|order| - 1] == Pp && i < |full| && full[i] == Pp
    ensures StrideOf(OrderedSizes(sizes, full), i) * sizes.pp == Prod(OrderedSizes(sizes, full))
  {
    assert full[|order| - 1] == Pp;
    var all := OrderedSizes(sizes, full);
    forall j | i < j < |full|
      ensures all[j] == 1
    {
      assert forall k :: 0 <= k < |order| ==> order[k] == full[k];
    }
    ProdOnes(all[i + 1..]);
    OneHotCounts(all, i);
  }

  /** If the order ends with pp, or pp is 1, the pipeline groups always coincide. */
  lemma {:induction false} PipelineGroupsAgree(c: Config)
    requires c.Valid() && c.Divides() && NoRepeat(c.order)
    requires Covers(c.Decoder(), c.order) && Covers(c.Expert(), c.order)
    requires c.PpLast() || c.pp == 1
    ensures c.Decoder().AllPositive() && c.Expert().AllPositive()
    ensures PipelineGroups(c.Decoder(), c.order) == PipelineGroups(c.Expert(), c.order)
  {
    BothFactorTheWorld(c);
    PipelineGroupsAgreeIff(c);
    if c.pp != 1 {
      PpLastStride(c.Decoder(), c.order);
      PpLastStride(c.Expert(), c.order);
      SameFactor(PpStride(c.Decoder(), c.order), PpStride(c.Expert(), c.order), c.pp);
    }
  }

  lemma SameFactor(a: nat, b: nat, p: nat)
    requires 0 < p && a * p == b * p
    ensures a == b
  {
  }

  /** The checks at the start of `initialize_model_parallel`, up to the comparison of the two sets of
      pipeline groups: the exact configurations that get through. */
  method BuildGenerators(c: Config) returns (r: Result<(Generator, Generator)>)
    requires c.Valid() && NoRepeat(c.order)
    ensures r.Ok? <==>
            && c.Divides() && Covers(c.Decoder(), c.order) && Covers(c.Expert(), c.order)
            && (c.PpLast() || c.pp == 1 ||
                (c.Expert().dp == c.Decoder().dp && PpStride(c.Decoder(), c.order) == PpStride(c.Expert(), c.order)))
    ensures r.Ok? ==> r.value == (Generator(c.Decoder(), Completed(c.order, TOKENS), 0), Generator(c.Expert(), Completed(c.order, TOKENS), 0))
  {
    assert 0 < c.tp * c.pp * c.cp && 0 < c.etp * c.ep * c.pp by {
      assert 0 < c.tp * c.pp && 0 < c.etp * c.ep;
    }
    if c.world % (c.tp * c.pp * c.cp) != 0 {
      return Err;
    }
    if c.world % (c.etp * c.ep * c.pp) != 0 {
      return Err;
    }
    var decoder := NewGenerator(c.Decoder(), c.order, 0);
    if decoder.Err? {
      return Err;
    }
    var expert := NewGenerator(c.Expert(), c.order, 0);
    if expert.Err? {
      return Err;
    }
    if !(c.PpLast() || c.pp == 1 || c.Expert().dp == c.Decoder().dp) {
      return Err;
    }
    var same := SamePipelineGroups(c, decoder.value, expert.value);
    if !same {
      return Err;
    }
    r := Ok((decoder.value, expert.value));
  }

  method SamePipelineGroups(c: Config, decoder: Generator, expert: Generator) returns (same: bool)
    requires c.Valid() && c.Divides() && NoRepeat(c.order)
    requires Covers(c.Decoder(), c.order) && Covers(c.Expert(), c.order)
    requires decoder == Generator(c.Decoder(), Completed(c.order, TOKENS), 0)
    requires expert == Generator(c.Expert(), Completed(c.order, TOKENS), 0)
    ensures same <==> c.pp == 1 || PpStride(c.Decoder(), c.order) == PpStride(c.Expert(), c.order)
    ensures c.PpLast() ==> same
  {
    BothFactorTheWorld(c);
    PipelineGroupsAgreeIff(c);
    if c.PpLast() {
      PipelineGroupsAgree(c);
    }
    var a := PipelineRanks(c.Decoder(), c.order);
    var b := PipelineRanks(c.Expert(), c.order);
    same := a == b;
  }

  method PipelineRanks(sizes: Sizes, order: seq<Dim>) returns (r: seq<seq<nat>>)
    requires sizes.AllPositive() && NoRepeat(order)
    ensures r == PipelineGroups(sizes, order)
  {
    CompletedReady(sizes, order);
    r := RanksOf(sizes, Completed(order, TOKENS), [Pp]);
  }

  lemma CompletedReady(sizes: Sizes, order: seq<Dim>)
    requires NoRepeat(order)
    ensures var full := Completed(order, TOKENS); NoRepeat(full) && Pp in full && Prod(OrderedSizes(sizes, full)) == sizes.World()
  {
    AllTokens();
    CompletedProperties(order, TOKENS);
    OrderedSizesMultiply(sizes, order);
  }

  method RanksOf(sizes: Sizes, full: seq<Dim>, tokens: seq<Dim>) returns (r: seq<seq<nat>>)
    requires sizes.AllPositive() && NoRepeat(full) && Prod(OrderedSizes(sizes, full)) == sizes.World()
    requires forall i :: 0 <= i < |tokens| ==> tokens[i] in full
    ensures Positive(OrderedSizes(sizes, full)) && r == AllGroups(OrderedSizes(sizes, full), MaskFor(full, tokens))
  {
    var ranks := GetRanks(Generator(sizes, full, 0), tokens);
    ShiftZero(AllGroups(OrderedSizes(sizes, full), MaskFor(full, tokens)));
    r := ranks.value;
  }
}
