/** The rank generator: parallel sizes in a chosen order, and the groups for a set of tokens. */
module RankGenerator {
  import opened Arith
  import opened MixedRadix
  import opened RankGroups
  import opened Sequences

  datatype Dim = Tp | Cp | Ep | Dp | Pp

  datatype Sizes = Sizes(tp: nat, ep: nat, dp: nat, pp: nat, cp: nat) {
    function Of(d: Dim): nat {
      match d
      case Tp => tp
      case Cp => cp
      case Ep => ep
      case Dp => dp
      case Pp => pp
    }

    function World(): nat {
      tp * dp * pp * cp * ep
    }

    predicate AllPositive() {
      0 < tp && 0 < ep && 0 < dp && 0 < pp && 0 < cp
    }
  }

  /** The order in which the size table is walked. */
  const TOKENS: seq<Dim> := [Tp, Pp, Dp, Ep, Cp]

  datatype Generator = Generator(sizes: Sizes, order: seq<Dim>, rankOffset: nat)

  /** The given order followed by the missing tokens. */
  function Completed(order: seq<Dim>, tokens: seq<Dim>): (r: seq<Dim>)
    decreases tokens
  {
    if tokens == [] then order
    else Completed(if tokens[0] in order then order else order + [tokens[0]], tokens[1..])
  }

  lemma {:induction false} CompletedProperties(order: seq<Dim>, tokens: seq<Dim>)
    ensures order <= Completed(order, tokens)
    ensures forall d :: d in Completed(order, tokens) <==> d in order || d in tokens
    ensures NoRepeat(order) ==> NoRepeat(Completed(order, tokens))
    decreases tokens
  {
    if tokens != [] {
      CompletedProperties(if tokens[0] in order then order else order + [tokens[0]], tokens[1..]);
      assert tokens == [tokens[0]] + tokens[1..];
    }
  }

  lemma AllTokens()
    ensures forall d: Dim :: d in TOKENS && multiset(TOKENS)[d] == 1
  {
    assert TOKENS[0] == Tp && TOKENS[1] == Pp && TOKENS[2] == Dp && TOKENS[3] == Ep && TOKENS[4] == Cp;
    forall d: Dim
      ensures d in TOKENS && multiset(TOKENS)[d] == 1
    {
      match d
      case Tp =>
      case Cp =>
      case Ep =>
      case Dp =>
      case Pp =>
    }
  }

  /** `RankGenerator.__init__`: a token may be left out of the order only if its size is 1. */
  method NewGenerator(sizes: Sizes, order: seq<Dim>, rankOffset: nat) returns (r: Result<Generator>)
    ensures r.Ok? <==> (sizes.ep == 1 || sizes.cp == 1) && forall d :: d !in order ==> sizes.Of(d) == 1
    ensures r.Ok? ==> r.value == Generator(sizes, Completed(order, TOKENS), rankOffset)
  {
    AllTokens();
    if sizes.ep != 1 && sizes.cp != 1 {
      return Err;
    }
    var full := CompleteOrder(sizes, order, TOKENS);
    if full.Err? {
      return Err;
    }
    r := Ok(Generator(sizes, full.value, rankOffset));
  }

  /** The loop over the size table. */
  method CompleteOrder(sizes: Sizes, order: seq<Dim>, tokens: seq<Dim>) returns (r: Result<seq<Dim>>)
    ensures r.Ok? <==> forall d :: d in tokens && d !in order ==> sizes.Of(d) == 1
    ensures r.Ok? ==> r.value == Completed(order, tokens)
  {
    var full := order;
    for i := 0 to |tokens|
      invariant Completed(full, tokens[i..]) == Completed(order, tokens)
      invariant forall d :: d in full <==> d in order || d in tokens[..i]
      invariant forall d :: d in tokens[..i] && d !in order ==> sizes.Of(d) == 1
    {
      assert tokens[i..][1..] == tokens[i + 1..] && tokens[..i + 1] == tokens[..i] + [tokens[i]];
      if tokens[i] !in full {
        if sizes.Of(tokens[i]) != 1 {
          return Err;
        }
        full := full + [tokens[i]];
      }
    }
    assert tokens[..|tokens|] == tokens;
    r := Ok(full);
  }

  function OrderedSizes(sizes: Sizes, order: seq<Dim>): (r: seq<nat>)
    ensures |r| == |order|
  {
    seq(|order|, i requires 0 <= i < |order| => sizes.Of(order[i]))
  }

  lemma {:induction false} PermutedProd(sizes: Sizes, a: seq<Dim>, b: seq<Dim>)
    requires multiset(a) == multiset(b)
    ensures Prod(OrderedSizes(sizes, a)) == Prod(OrderedSizes(sizes, b))
  {
    assert |multiset(a)| == |a| && |multiset(b)| == |b|;
    if a != [] {
      var i := FindFirst(a, b);
      PermutedProd(sizes, a[1..], b[..i] + b[i + 1..]);
      ProdRemove(sizes, b, i);
      assert OrderedSizes(sizes, a)[1..] == OrderedSizes(sizes, a[1..]);
    }
  }

  /** Where the head of `a` sits in the permutation `b`. */
  lemma FindFirst(a: seq<Dim>, b: seq<Dim>) returns (i: nat)
    requires a != [] && multiset(a) == multiset(b)
    ensures i < |b| && b[i] == a[0] && multiset(a[1..]) == multiset(b[..i] + b[i + 1..])
  {
    assert a[0] in multiset(b);
    i :| 0 <= i < |b| && b[i] == a[0];
    assert a == [a[0]] + a[1..];
    assert b == b[..i] + [b[i]] + b[i + 1..];
    assert multiset(b[..i] + b[i + 1..]) == multiset(b) - multiset{a[0]};
    assert multiset(a[1..]) == multiset(a) - multiset{a[0]};
  }

  lemma {:induction false} ProdRemove(sizes: Sizes, b: seq<Dim>, i: nat)
    requires i < |b|
    ensures Prod(OrderedSizes(sizes, b)) == sizes.Of(b[i]) * Prod(OrderedSizes(sizes, b[..i] + b[i + 1..]))
  {
    var p, q, x := OrderedSizes(sizes, b[..i]), OrderedSizes(sizes, b[i + 1..]), sizes.Of(b[i]);
    assert OrderedSizes(sizes, b) == p + ([x] + q);
    assert OrderedSizes(sizes, b[..i] + b[i + 1..]) == p + q;
    ProdConcat(p, [x] + q);
    ProdConcat(p, q);
    assert ([x] + q)[1..] == q;
    MulAssoc(Prod(p), x, Prod(q));
  }

  lemma {:induction false} RepeatFree(order: seq<Dim>)
    requires NoRepeat(order)
    ensures forall d :: multiset(order)[d] == if d in order then 1 else 0
  {
    if order != [] {
      RepeatFree(order[1..]);
      assert order == [order[0]] + order[1..];
      assert order[0] !in order[1..];
    }
  }

  /** The ordered sizes multiply to the world size, whatever the order of distinct tokens. */
  lemma {:induction false} OrderedSizesMultiply(sizes: Sizes, order: seq<Dim>)
    requires NoRepeat(order)
    ensures Prod(OrderedSizes(sizes, Completed(order, TOKENS))) == sizes.World()
  {
    TokensPermuted(order);
    PermutedProd(sizes, Completed(order, TOKENS), TOKENS);
    TokensProd(sizes);
  }

  lemma {:induction false} TokensPermuted(order: seq<Dim>)
    requires NoRepeat(order)
    ensures multiset(Completed(order, TOKENS)) == multiset(TOKENS)
  {
    AllTokens();
    CompletedProperties(order, TOKENS);
    RepeatFree(Completed(order, TOKENS));
  }

  lemma TokensProd(sizes: Sizes)
    ensures Prod(OrderedSizes(sizes, TOKENS)) == sizes.World()
  {
    assert OrderedSizes(sizes, TOKENS) == [sizes.tp, sizes.pp, sizes.dp, sizes.ep, sizes.cp];
    ProdFive(sizes.tp, sizes.pp, sizes.dp, sizes.ep, sizes.cp);
    MulAssoc(sizes.tp, sizes.pp, sizes.dp);
    MulAssoc(sizes.tp, sizes.dp, sizes.pp);
    MulAssoc(sizes.tp * sizes.dp * sizes.pp, sizes.ep, sizes.cp);
    MulAssoc(sizes.tp * sizes.dp * sizes.pp, sizes.cp, sizes.ep);
  }

  lemma ProdFive(a: nat, b: nat, c: nat, d: nat, e: nat)
    ensures Prod([a, b, c, d, e]) == a * b * c * d * e
  {
    assert [a, b, c, d, e][1..] == [b, c, d, e] && [b, c, d, e][1..] == [c, d, e];
    assert [c, d, e][1..] == [d, e] && [d, e][1..] == [e] && [e][1..] == [];
    assert Prod([e]) == e * Prod([]);
    assert Prod([d, e]) == d * e;
    MulAssoc(c, d, e);
    assert Prod([c, d, e]) == c * d * e;
    MulAssoc(b, c * d, e);
    MulAssoc(b, c, d);
    assert Prod([b, c, d, e]) == b * c * d * e;
    MulAssoc(a, b * c * d, e);
    MulAssoc(a, b * c, d);
    MulAssoc(a, b, c);
  }

  /** The mask that marks the requested tokens. */
  function MaskFor(order: seq<Dim>, tokens: seq<Dim>): (mask: seq<bool>)
    ensures |mask| == |order|
  {
    seq(|order|, i requires 0 <= i < |order| => order[i] in tokens)
  }

  function IndexOf(order: seq<Dim>, d: Dim): (i: nat)
    requires d in order
    ensures i < |order| && order[i] == d
  {
    if order[0] == d then 0 else 1 + IndexOf(order[1..], d)
  }

  /** `get_mask`: mark the first occurrence of every token; an unknown token is an error. */
  method GetMask(order: seq<Dim>, tokens: seq<Dim>) returns (r: Result<seq<bool>>)
    requires NoRepeat(order)
    ensures r.Ok? <==> forall i :: 0 <= i < |tokens| ==> tokens[i] in order
    ensures r.Ok? ==> r.value == MaskFor(order, tokens)
  {
    var mask := seq(|order|, _ => false);
    for t := 0 to |tokens|
      invariant |mask| == |order| && forall i :: 0 <= i < t ==> tokens[i] in order
      invariant mask == MaskFor(order, tokens[..t])
    {
      if tokens[t] !in order {
        return Err;
      }
      var at := IndexOf(order, tokens[t]);
      mask := mask[at := true];
      assert tokens[..t + 1] == tokens[..t] + [tokens[t]];
    }
    assert tokens[..|tokens|] == tokens;
    r := Ok(mask);
  }

  /** Adds the rank offset to every entry, group by group. */
  method AddOffset(groups: seq<seq<nat>>, rankOffset: nat) returns (r: seq<seq<nat>>)
    ensures r == Shift(groups, rankOffset)
  {
    r := groups;
    for g := 0 to |groups|
      invariant |r| == |groups|
      invariant forall h :: 0 <= h < g ==> r[h] == Shift(groups, rankOffset)[h]
      invariant forall h :: g <= h < |groups| ==> r[h] == groups[h]
    {
      var group := r[g];
      for i := 0 to |group|
        invariant |group| == |groups[g]|
        invariant forall k :: 0 <= k < i ==> group[k] == groups[g][k] + rankOffset
        invariant forall k :: i <= k < |group| ==> group[k] == groups[g][k]
      {
        group := group[i := group[i] + rankOffset];
      }
      assert group == Shift(groups, rankOffset)[g];
      r := r[g := group];
    }
  }

  lemma ShiftZero(groups: seq<seq<nat>>)
    ensures Shift(groups, 0) == groups
  {
    forall g | 0 <= g < |groups|
      ensures Shift(groups, 0)[g] == groups[g]
    {
    }
  }

  /** `get_ranks`: the groups spanned by the tokens, shifted by the offset. */
  method GetRanks(gen: Generator, tokens: seq<Dim>) returns (r: Result<seq<seq<nat>>>)
    requires gen.sizes.AllPositive() && NoRepeat(gen.order) && Prod(OrderedSizes(gen.sizes, gen.order)) == gen.sizes.World()
    ensures Positive(OrderedSizes(gen.sizes, gen.order))
    ensures r.Ok? <==> forall i :: 0 <= i < |tokens| ==> tokens[i] in gen.order
    ensures r.Ok? ==> r.value == Shift(AllGroups(OrderedSizes(gen.sizes, gen.order), MaskFor(gen.order, tokens)), gen.rankOffset)
  {
    var mask := GetMask(gen.order, tokens);
    if mask.Err? {
      return Err;
    }
    r := GenerateMaskedOrthogonalRankGroups(gen.sizes.World(), OrderedSizes(gen.sizes, gen.order), mask.value);
    if gen.rankOffset > 0 {
      var shifted := AddOffset(r.value, gen.rankOffset);
      r := Ok(shifted);
    } else {
      ShiftZero(r.value);
    }
  }

  // ---- What the groups of a token list are ----

  /** How far apart neighbours along a token are: the product of the sizes of the tokens before it. */
  function TokenStride(sizes: Sizes, order: seq<Dim>, d: Dim): nat
    requires d in order
  {
    if order[0] == d then 1 else sizes.Of(order[0]) * TokenStride(sizes, order[1..], d)
  }

  lemma {:induction false} TokenStrideIs(sizes: Sizes, order: seq<Dim>, d: Dim)
    requires d in order
    ensures TokenStride(sizes, order, d) == Prod(OrderedSizes(sizes, order)[..IndexOf(order, d)])
  {
    if order[0] != d {
      TokenStrideIs(sizes, order[1..], d);
      var i := IndexOf(order, d);
      assert OrderedSizes(sizes, order)[..i][1..] == OrderedSizes(sizes, order[1..])[..i - 1];
    }
  }

  /** Two ranks have the same coordinate along a token. */
  ghost predicate SameAlong(sizes: Sizes, order: seq<Dim>, d: Dim, r: nat, r': nat)
    requires d in order && sizes.AllPositive()
  {
    var u := TokenStride(sizes, order, d);
    0 < u && r / u % sizes.Of(d) == r' / u % sizes.Of(d)
  }

  ghost predicate SameOutside(sizes: Sizes, order: seq<Dim>, tokens: seq<Dim>, r: nat, r': nat)
    requires sizes.AllPositive()
  {
    forall d :: d in order && d !in tokens ==> SameAlong(sizes, order, d, r, r')
  }

  lemma PositiveSizes(sizes: Sizes, order: seq<Dim>)
    requires sizes.AllPositive()
    ensures Positive(OrderedSizes(sizes, order))
  {
  }

  lemma SameAlongIff(sizes: Sizes, order: seq<Dim>, i: nat, r: nat, r': nat)
    requires sizes.AllPositive() && NoRepeat(order) && i < |order| && Positive(OrderedSizes(sizes, order))
    ensures SameAlong(sizes, order, order[i], r, r') <==>
            Coord(OrderedSizes(sizes, order), i, r) == Coord(OrderedSizes(sizes, order), i, r')
  {
    assert IndexOf(order, order[i]) == i;
    TokenStrideIs(sizes, order, order[i]);
    ProdPositive(OrderedSizes(sizes, order)[..i]);
  }

  lemma SameOutsideIff(sizes: Sizes, order: seq<Dim>, tokens: seq<Dim>, r: nat, r': nat)
    requires sizes.AllPositive() && NoRepeat(order) && Positive(OrderedSizes(sizes, order))
    ensures SameOutside(sizes, order, tokens, r, r') <==>
            AgreeOn(OrderedSizes(sizes, order), MaskFor(order, tokens), false, r, r')
  {
    forall i | 0 <= i < |order|
      ensures SameAlong(sizes, order, order[i], r, r') <==>
              Coord(OrderedSizes(sizes, order), i, r) == Coord(OrderedSizes(sizes, order), i, r')
    {
      SameAlongIff(sizes, order, i, r, r');
    }
    if AgreeOn(OrderedSizes(sizes, order), MaskFor(order, tokens), false, r, r') {
      forall d | d in order && d !in tokens
        ensures SameAlong(sizes, order, d, r, r')
      {
        var i := IndexOf(order, d);
        assert !MaskFor(order, tokens)[i];
      }
    }
  }

  ghost predicate InOneGroup(groups: seq<seq<nat>>, r: nat, r': nat) {
    exists g :: 0 <= g < |groups| && r in groups[g] && r' in groups[g]
  }

  lemma InShifted(group: seq<nat>, groups: seq<seq<nat>>, g: nat, offset: nat, r: nat)
    requires g < |groups| && group == groups[g]
    ensures r + offset in Shift(groups, offset)[g] <==> r in group
  {
    var shifted := Shift(groups, offset)[g];
    if r + offset in shifted {
      var k :| 0 <= k < |shifted| && shifted[k] == r + offset;
      assert group[k] == r;
    }
    if r in group {
      var k :| 0 <= k < |group| && group[k] == r;
      assert shifted[k] == r + offset;
    }
  }

  /** Whatever the tokens asked for and the order, two ranks share a group exactly when they have the same coordinate
      along every token that was not asked for. */
  lemma {:induction false} SharedGroupIff(gen: Generator, tokens: seq<Dim>, r: nat, r': nat)
    requires gen.sizes.AllPositive() && NoRepeat(gen.order) && Prod(OrderedSizes(gen.sizes, gen.order)) == gen.sizes.World()
    requires r < gen.sizes.World() && r' < gen.sizes.World()
    ensures Positive(OrderedSizes(gen.sizes, gen.order))
    ensures var groups := Shift(AllGroups(OrderedSizes(gen.sizes, gen.order), MaskFor(gen.order, tokens)), gen.rankOffset);
            InOneGroup(groups, r + gen.rankOffset, r' + gen.rankOffset) <==> SameOutside(gen.sizes, gen.order, tokens, r, r')
  {
    PositiveSizes(gen.sizes, gen.order);
    var sizes, mask := OrderedSizes(gen.sizes, gen.order), MaskFor(gen.order, tokens);
    var groups := AllGroups(sizes, mask);
    SameGroupIff(sizes, mask, r, r');
    SameOutsideIff(gen.sizes, gen.order, tokens, r, r');
    forall g | 0 <= g < |groups|
      ensures r + gen.rankOffset in Shift(groups, gen.rankOffset)[g] <==> r in groups[g]
      ensures r' + gen.rankOffset in Shift(groups, gen.rankOffset)[g] <==> r' in groups[g]
    {
      InShifted(groups[g], groups, g, gen.rankOffset, r);
      InShifted(groups[g], groups, g, gen.rankOffset, r');
    }
  }
}
