/** Distributed-optimizer instances under the default order tp-cp-ep-dp-pp: the attention and the
    expert data-parallel groups are cut into the same instances, although they come from different
    factorisations of the world. */
module OptimizerInstances {
  import opened Arith
  import opened MixedRadix
  import opened RankGroups
  import opened Sequences
  import opened Hierarchy
  import opened RankGenerator
  import opened ModelParallel

  /** The ranks of group `g` along a dimension of size `d` and stride `s`. */
  function FlatGroup(s: nat, d: nat, g: nat): (r: seq<nat>)
    requires 0 < s
    ensures |r| == d
  {
    seq(d, p requires 0 <= p => Strided(s, d, g, p))
  }

  lemma RankAtCons(s: nat, rest: seq<nat>, b: bool, m: seq<bool>, g: nat, k: nat)
    requires 0 < s && Positive(rest) && |rest| == |m|
    ensures RankAt([s] + rest, [b] + m, g, k) ==
            if b then k % s + s * RankAt(rest, m, g, k / s) else g % s + s * RankAt(rest, m, g / s, k)
  {
    assert ([s] + rest)[1..] == rest && ([b] + m)[1..] == m;
  }

  /** A trailing dimension contributes one digit. */
  lemma RankAtLast(s: nat, b: bool, g: nat, k: nat)
    requires 0 < s
    ensures RankAt([s], [b], g, k) == if b then k % s else g % s
  {
    RankAtCons(s, [], b, [], g, k);
    assert [s] + [] == [s] && [b] + [] == [b];
  }

  lemma {:induction false} DecoderTail(dp: nat, pp: nat, g: nat, k: nat)
    requires 0 < dp && 0 < pp && g < pp && k < dp
    ensures RankAt([1, dp, pp], [false, true, false], g, k) == k + dp * g
  {
    RankAtLast(pp, false, g, k / dp);
    RankAtCons(dp, [pp], true, [false], g, k);
    assert [dp] + [pp] == [dp, pp] && [true] + [false] == [true, false];
    RankAtCons(1, [dp, pp], false, [true, false], g, k);
    assert [1] + [dp, pp] == [1, dp, pp] && [false] + [true, false] == [false, true, false];
    DivModUnique(g, pp, 0, g);
    DivModUnique(k, dp, 0, k);
  }

  /** The attention dp-cp groups are runs along one dimension of size cp*dp and stride tp. */
  lemma {:induction false} DecoderRank(tp: nat, cp: nat, dp: nat, pp: nat, g: nat, k: nat)
    requires 0 < tp && 0 < cp && 0 < dp && 0 < pp && g < tp * pp && k < cp * dp
    ensures RankAt([tp, cp, 1, dp, pp], [false, true, false, true, false], g, k) == Strided(tp, cp * dp, g, k)
  {
    DivBound(g, tp, pp);
    DecoderMid(cp, dp, pp, g / tp, k);
    RankAtCons(tp, [cp, 1, dp, pp], false, [true, false, true, false], g, k);
    assert [tp] + [cp, 1, dp, pp] == [tp, cp, 1, dp, pp];
    assert [false] + [true, false, true, false] == [false, true, false, true, false];
  }

  lemma {:induction false} DecoderMid(cp: nat, dp: nat, pp: nat, g: nat, k: nat)
    requires 0 < cp && 0 < dp && 0 < pp && g < pp && k < cp * dp
    ensures RankAt([cp, 1, dp, pp], [true, false, true, false], g, k) == k + cp * dp * g
  {
    DivBound(k, cp, dp);
    DecoderTail(dp, pp, g, k / cp);
    RankAtCons(cp, [1, dp, pp], true, [false, true, false], g, k);
    assert [cp] + [1, dp, pp] == [cp, 1, dp, pp] && [true] + [false, true, false] == [true, false, true, false];
    DivModId(k, cp);
    MulAssoc(cp, dp, g);
    assert cp * (k / cp + dp * g) == cp * (k / cp) + cp * (dp * g);
  }

  lemma {:induction false} ExpertTail(ep: nat, edp: nat, pp: nat, g: nat, k: nat)
    requires 0 < ep && 0 < edp && 0 < pp && g < edp && k / ep < pp
    ensures RankAt([1, ep, edp, pp], [false, true, false, true], g, k) == k % ep + ep * (g + edp * (k / ep))
  {
    ExpertEnd(edp, pp, g, k / ep);
    RankAtCons(ep, [edp, pp], true, [false, true], g, k);
    assert [ep] + [edp, pp] == [ep, edp, pp] && [true] + [false, true] == [true, false, true];
    RankAtCons(1, [ep, edp, pp], false, [true, false, true], g, k);
    assert [1] + [ep, edp, pp] == [1, ep, edp, pp] && [false] + [true, false, true] == [false, true, false, true];
    assert g % 1 == 0 && g / 1 == g;
  }

  lemma {:induction false} ExpertEnd(edp: nat, pp: nat, g: nat, k: nat)
    requires 0 < edp && 0 < pp && g < edp && k < pp
    ensures RankAt([edp, pp], [false, true], g, k) == g + edp * k
  {
    RankAtLast(pp, true, g / edp, k);
    RankAtCons(edp, [pp], false, [true], g, k);
    assert [edp] + [pp] == [edp, pp] && [false] + [true] == [false, true];
    DivModUnique(g, edp, 0, g);
    DivModUnique(k, pp, 0, k);
  }

  /** The tp-ep-pp group `g` holds the ranks whose expert data-parallel digit is `g`. */
  lemma {:induction false} ExpertModelRank(etp: nat, ep: nat, edp: nat, pp: nat, g: nat, k: nat)
    requires 0 < etp && 0 < ep && 0 < edp && 0 < pp && g < edp && k < etp * ep * pp
    ensures 0 < etp * ep
    ensures RankAt([etp, 1, ep, edp, pp], [true, false, true, false, true], g, k)
         == Strided(etp * ep, edp, k, g)
  {
    DivModProduct(k, etp, ep);
    DivBound(k, etp * ep, pp);
    ExpertTail(ep, edp, pp, g, k / etp);
    RankAtCons(etp, [1, ep, edp, pp], true, [false, true, false, true], g, k);
    assert [etp] + [1, ep, edp, pp] == [etp, 1, ep, edp, pp];
    assert [true] + [false, true, false, true] == [true, false, true, false, true];
    var h := g + edp * (k / etp / ep);
    MulAssoc(etp, ep, h);
    assert etp * (k / etp % ep + ep * h) == etp * (k / etp % ep) + etp * (ep * h);
  }

  /** The instance of a rank: its block of size `b` within its run of `m` ranks. */
  function Inst(r: nat, m: nat, b: nat): nat
    requires 0 < m && 0 < b
  {
    r % m / b
  }

  /** The ranks that take the place of `r` in every instance. */
  function Peers(r: nat, m: nat, b: nat, n: nat): (peers: seq<nat>)
    requires 0 < m && 0 < b
    ensures |peers| == n
  {
    seq(n, i requires 0 <= i => r / m * m + r % m % b + b * i)
  }

  lemma {:induction false} FlatRun(s: nat, d: nat, g: nat, p: nat)
    requires 0 < s && 0 < d && p < d
    ensures 0 < s * d
    ensures Strided(s, d, g, p) / (s * d) == g / s && Strided(s, d, g, p) % (s * d) == g % s + s * p
  {
    MulMono(1, d, s);
    TwoDigitsBound(g % s, p, s, d);
    MulAssoc(s, d, g / s);
    assert s * (p + d * (g / s)) == s * p + s * (d * (g / s));
    TwoDigits(g % s + s * p, g / s, s * d);
  }

  /** Where a rank of a flat group lies, in terms of the stride `s`, the instance size `c` and the
      number `n` of instances. */
  lemma {:induction false} FlatPosition(s: nat, c: nat, n: nat, g: nat, p: nat)
    requires 0 < s && 0 < c && 0 < n && p < c * n
    ensures 0 < c * n && 0 < s * (c * n) && 0 < s * c
    ensures var r, m := Strided(s, c * n, g, p), s * (c * n);
            && r / m == g / s && r % m == g % s + s * p
            && Inst(r, m, s * c) == p / c && r % m % (s * c) == g % s + s * (p % c)
  {
    FlatRun(s, c * n, g, p);
    DivModProduct(g % s + s * p, s, c);
    TwoDigits(g % s, p, s);
  }

  lemma {:induction false} IntraEntry(ranks: seq<nat>, c: nat, n: nat, h: nat, i: nat)
    requires 0 < c && 0 < n && |ranks| == Prod([c, n]) && h < n && i < c
    ensures c * h + i < |ranks| == c * n
    ensures |LevelGroups(ranks, [c, n], 0)| == n && |LevelGroups(ranks, [c, n], 0)[h]| == c
    ensures LevelGroups(ranks, [c, n], 0)[h][i] == ranks[c * h + i]
  {
    ProdTwo(c, n);
    TwoDigitsBound(i, h, c, n);
    assert [c, n][1..] == [n] && [c, n][..0] == [];
    LevelRow(ranks, [c, n], 0, h);
    OneHotRank([c, n], 0, h, i);
    assert h % 1 == 0 && h / 1 == h;
  }

  /** Level 0 of the split into `n` instances is the slice of consecutive positions. */
  lemma {:induction false} IntraIsSlice(ranks: seq<nat>, c: nat, n: nat, p: nat)
    requires 0 < c && 0 < n && |ranks| == c * n && p < c * n
    ensures Prod([c, n]) == c * n && p / c < n && 0 <= c * (p / c) <= c * (p / c) + c <= |ranks|
    ensures OwnGroup(ranks, [c, n], 0, p) == ranks[c * (p / c)..c * (p / c) + c]
  {
    ProdTwo(c, n);
    DivBound(p, c, n);
    MulMono(p / c + 1, n, c);
    assert c * (p / c + 1) == c * (p / c) + c;
    SplitIndex(c, n, p);
    var h := p / c;
    IntraEntry(ranks, c, n, h, 0);
    var own := LevelGroups(ranks, [c, n], 0)[h];
    forall i | 0 <= i < c
      ensures own[i] == ranks[c * h..c * h + c][i]
    {
      IntraEntry(ranks, c, n, h, i);
    }
    assert own == ranks[c * h..c * h + c];
  }

  lemma ProdTwo(c: nat, n: nat)
    ensures Prod([c, n]) == c * n && Prod([n]) == n && Prod([c]) == c
  {
    assert [c, n][1..] == [n] && [n][1..] == [] && [c][1..] == [];
    assert Prod([n]) == n * Prod([]) && Prod([c]) == c * Prod([]);
  }

  lemma {:induction false} SplitIndex(c: nat, n: nat, p: nat)
    requires 0 < c && 0 < n && p < c * n
    ensures GroupOf([c, n], OneHot(2, 0), p) == p / c && GroupOf([c, n], OneHot(2, 1), p) == p % c
  {
    assert [c, n][1..] == [n] && [n][1..] == [];
    assert OneHot(2, 0)[1..] == [false] && OneHot(2, 1)[1..] == [true];
    assert [false][1..] == [] && [true][1..] == [];
    DivBound(p, c, n);
    DivModUnique(p / c, n, 0, p / c);
    assert Part([n], [false], false, p / c) == p / c;
    assert Part([n], [true], false, p / c) == 0;
  }

  /** Level 1 of the split picks the rank at the same place in every instance. */
  lemma {:induction false} InterIsStride(ranks: seq<nat>, c: nat, n: nat, p: nat, u: nat, i: nat)
    requires 0 < c && 0 < n && |ranks| == c * n == Prod([c, n]) && p < c * n && u == p % c && i < n
    ensures u + c * i < |ranks|
    ensures |OwnGroup(ranks, [c, n], 1, p)| == n && OwnGroup(ranks, [c, n], 1, p)[i] == ranks[u + c * i]
  {
    SplitIndex(c, n, p);
    InterEntry(ranks, c, n, u, i);
  }

  lemma {:induction false} InterEntry(ranks: seq<nat>, c: nat, n: nat, u: nat, i: nat)
    requires 0 < c && 0 < n && |ranks| == Prod([c, n]) && u < c && i < n
    ensures u + c * i < |ranks| == c * n
    ensures |LevelGroups(ranks, [c, n], 1)| == c && |LevelGroups(ranks, [c, n], 1)[u]| == n
    ensures LevelGroups(ranks, [c, n], 1)[u][i] == ranks[u + c * i]
  {
    ProdTwo(c, n);
    TwoDigitsBound(u, i, c, n);
    SecondDimension(c, n, u, i);
    LevelRow(ranks, [c, n], 1, u);
  }

  lemma {:induction false} SecondDimension(c: nat, n: nat, u: nat, i: nat)
    requires 0 < c && u < c && i < n
    ensures StrideOf([c, n], 1) == c && Above([c, n], 1) == 1
    ensures RankAt([c, n], OneHot(2, 1), u, i) == u + c * i
  {
    ProdTwo(c, n);
    assert [c, n][2..] == [] && [c, n][..1] == [c];
    OneHotRank([c, n], 1, u, i);
    DivModUnique(u, c, 0, u);
    assert Strided(c, n, u, i) == u + c * (i + n * 0);
  }

  /** All ranks of an intra-instance group lie in one instance. */
  lemma {:induction false} FlatIntra(s: nat, c: nat, n: nat, g: nat, p: nat, r: nat)
    requires 0 < s && 0 < c && 0 < n && p < c * n
    requires Prod([c, n]) == c * n && r in OwnGroup(FlatGroup(s, c * n, g), [c, n], 0, p)
    ensures 0 < s * (c * n) && 0 < s * c && Inst(r, s * (c * n), s * c) == p / c
    ensures r in FlatGroup(s, c * n, g)
  {
    var ranks, h := FlatGroup(s, c * n, g), p / c;
    IntraIsSlice(ranks, c, n, p);
    var j :| c * h <= j < c * h + c && ranks[j] == r;
    FlatPosition(s, c, n, g, j);
    DivModUnique(j, c, h, j - c * h);
  }

  /** The converse: a rank of the whole group that lies in that instance is in the intra-instance group. */
  lemma {:induction false} FlatOwnPart(s: nat, c: nat, n: nat, g: nat, p: nat, r: nat)
    requires 0 < s && 0 < c && 0 < n && p < c * n && Prod([c, n]) == c * n && r in FlatGroup(s, c * n, g)
    requires 0 < s * (c * n) && 0 < s * c && Inst(r, s * (c * n), s * c) == p / c
    ensures r in OwnGroup(FlatGroup(s, c * n, g), [c, n], 0, p)
  {
    var ranks, h := FlatGroup(s, c * n, g), p / c;
    IntraIsSlice(ranks, c, n, p);
    var j :| 0 <= j < |ranks| && ranks[j] == r;
    FlatPosition(s, c, n, g, j);
    DivModId(j, c);
    assert ranks[c * h..c * h + c][j - c * h] == r;
  }

  /** The inter-instance group of a rank is the list of its peers. */
  lemma {:induction false} FlatInter(s: nat, c: nat, n: nat, g: nat, p: nat)
    requires 0 < s && 0 < c && 0 < n && p < c * n
    ensures Prod([c, n]) == c * n && 0 < s * (c * n) && 0 < s * c
    ensures OwnGroup(FlatGroup(s, c * n, g), [c, n], 1, p) == Peers(Strided(s, c * n, g, p), s * (c * n), s * c, n)
  {
    ProdTwo(c, n);
    FlatPosition(s, c, n, g, p);
    var own := OwnGroup(FlatGroup(s, c * n, g), [c, n], 1, p);
    var peers := Peers(Strided(s, c * n, g, p), s * (c * n), s * c, n);
    InterIsStride(FlatGroup(s, c * n, g), c, n, p, p % c, 0);
    forall i | 0 <= i < n
      ensures own[i] == peers[i]
    {
      FlatPeer(s, c, n, g, p, i);
    }
  }

  lemma {:induction false} FlatPeer(s: nat, c: nat, n: nat, g: nat, p: nat, i: nat)
    requires 0 < s && 0 < c && 0 < n && p < c * n && i < n && Prod([c, n]) == c * n
    requires 0 < s * (c * n) && 0 < s * c
    ensures |OwnGroup(FlatGroup(s, c * n, g), [c, n], 1, p)| == n
    ensures OwnGroup(FlatGroup(s, c * n, g), [c, n], 1, p)[i] == Peers(Strided(s, c * n, g, p), s * (c * n), s * c, n)[i]
  {
    InterIsStride(FlatGroup(s, c * n, g), c, n, p, p % c, i);
    FlatPosition(s, c, n, g, p);
    PeerEntry(s, c, n, g, p, i);
  }

  lemma {:induction false} PeerEntry(s: nat, c: nat, n: nat, g: nat, p: nat, i: nat)
    requires 0 < s && 0 < c && 0 < n
    ensures Strided(s, c * n, g, p % c + c * i) == g / s * (s * (c * n)) + (g % s + s * (p % c)) + s * c * i
  {
    var h, d, u := g / s, c * n, p % c;
    MulAssoc(s, d, h);
    MulAssoc(s, c, i);
    assert s * (u + c * i + d * h) == s * u + s * (c * i) + s * (d * h);
  }

  const DEFAULT_ORDER: seq<Dim> := [Tp, Cp, Ep, Dp, Pp]

  /** The sizes involved: `q` attention and `k` expert data-parallel ranks per instance, `n` instances. */
  datatype Cut = Cut(tp: nat, cp: nat, dp: nat, pp: nat, etp: nat, ep: nat, edp: nat, n: nat, q: nat, k: nat) {
    ghost predicate Consistent() {
      && 0 < tp && 0 < cp && 0 < dp && 0 < pp && 0 < etp && 0 < ep && 0 < edp && 0 < n && 0 < q && 0 < k
      && q * n == cp * dp && k * n == edp
      && tp * (q * n) == etp * ep * (k * n) && tp * q == etp * ep * k
    }

    function DecoderShape(): seq<nat> {
      [tp, cp, 1, dp, pp]
    }

    function ExpertShape(): seq<nat> {
      [etp, 1, ep, edp, pp]
    }

    /** Ranks per pipeline stage, and per instance within a stage. */
    function Stage(): nat {
      tp * (q * n)
    }

    function Block(): nat {
      tp * q
    }

    function World(): nat {
      Stage() * pp
    }
  }

  const DP_CP: seq<bool> := [false, true, false, true, false]
  const EXPERT_DP: seq<bool> := [false, false, false, true, false]
  const EXPERT_MODEL: seq<bool> := [true, false, true, false, true]

  /** The masks of the tokens dp-cp, dp and tp-ep-pp under the default order. */
  lemma DefaultMasks()
    ensures MaskFor(DEFAULT_ORDER, [Dp, Cp]) == DP_CP
    ensures MaskFor(DEFAULT_ORDER, [Dp]) == EXPERT_DP == OneHot(5, 3)
    ensures MaskFor(DEFAULT_ORDER, [Tp, Ep, Pp]) == EXPERT_MODEL
  {
  }

  /** The acceptance checks of the optimizer instances. */
  ghost predicate Accepted(c: Config, n: nat) {
    && c.Valid() && c.Divides() && c.order == DEFAULT_ORDER && 0 < n
    && c.Decoder().dp * c.cp % n == 0 && c.Expert().dp % n == 0
  }

  ghost function CutOf(c: Config, n: nat): Cut
    requires Accepted(c, n)
  {
    var dp, edp := c.Decoder().dp, c.Expert().dp;
    Cut(c.tp, c.cp, dp, c.pp, c.etp, c.ep, edp, n, dp * c.cp / n, edp / n)
  }

  lemma {:induction false} CutConsistent(c: Config, n: nat)
    requires Accepted(c, n)
    ensures CutOf(c, n).Consistent() && CutOf(c, n).World() == c.world
    ensures OrderedSizes(c.Decoder(), DEFAULT_ORDER) == CutOf(c, n).DecoderShape()
    ensures OrderedSizes(c.Expert(), DEFAULT_ORDER) == CutOf(c, n).ExpertShape()
  {
    var t := CutOf(c, n);
    BothFactorTheWorld(c);
    ExactQuotient(t.dp * t.cp, n);
    ExactQuotient(t.edp, n);
    assert t.q * n == t.cp * t.dp && t.k * n == t.edp;
    StageProducts(t.tp, t.dp, t.pp, t.cp, 1, t.cp * t.dp);
    StageProducts(t.etp, t.edp, t.pp, 1, t.ep, t.edp * t.ep);
    SameFactor(t.tp * (t.cp * t.dp), t.etp * (t.edp * t.ep), t.pp);
    MulAssoc(t.etp, t.ep, t.edp);
    MulAssoc(t.tp, t.q, n);
    MulAssoc(t.etp * t.ep, t.k, n);
    SameFactor(t.tp * t.q, t.etp * t.ep * t.k, n);
  }

  lemma StageProducts(a: nat, b: nat, p: nat, d: nat, e: nat, x: nat)
    requires x == b * d * e
    ensures a * b * p * d * e == a * x * p
  {
    assert a * b * p * d * e == a * b * d * e * p by {
      Rearranged(a * b, 1, p, d, e);
      Rearranged(a * b, p, 1, d, e);
    }
    MulAssoc(a, b, d);
    MulAssoc(a, b * d, e);
  }

  lemma {:induction false} DecoderGroupIsFlat(t: Cut, r: nat)
    requires t.Consistent() && Positive(t.DecoderShape()) && r < Prod(t.DecoderShape())
    ensures var g, p := GroupOf(t.DecoderShape(), DP_CP, r), PosOf(t.DecoderShape(), DP_CP, r);
            && g < GroupCount(t.DecoderShape(), DP_CP) && p < t.q * t.n
            && r == Strided(t.tp, t.q * t.n, g, p)
            && AllGroups(t.DecoderShape(), DP_CP)[g] == FlatGroup(t.tp, t.q * t.n, g)
  {
    var sizes := t.DecoderShape();
    var g, p := GroupOf(sizes, DP_CP, r), PosOf(sizes, DP_CP, r);
    DecoderCounts(t);
    PartBound(sizes, DP_CP, false, r);
    PartBound(sizes, DP_CP, true, r);
    RecombineSplit(sizes, DP_CP, r);
    forall k | 0 <= k < t.cp * t.dp
      ensures RankAt(sizes, DP_CP, g, k) == Strided(t.tp, t.cp * t.dp, g, k)
    {
      DecoderRank(t.tp, t.cp, t.dp, t.pp, g, k);
    }
  }

  lemma DecoderCounts(t: Cut)
    ensures GroupSize(t.DecoderShape(), DP_CP) == t.cp * t.dp
    ensures GroupCount(t.DecoderShape(), DP_CP) == t.tp * t.pp
  {
    SelectFive(t.DecoderShape(), DP_CP, true);
    SelectFive(t.DecoderShape(), DP_CP, false);
    assert Select(t.DecoderShape(), DP_CP, true) == [t.cp, t.dp];
    assert Select(t.DecoderShape(), DP_CP, false) == [t.tp, 1, t.pp];
    ProdTwo(t.cp, t.dp);
    Prod3(t.tp, 1, t.pp);
  }

  lemma ExpertCounts(t: Cut)
    ensures GroupSize(t.ExpertShape(), EXPERT_MODEL) == t.etp * (t.ep * t.pp)
    ensures GroupCount(t.ExpertShape(), EXPERT_MODEL) == t.edp
  {
    SelectFive(t.ExpertShape(), EXPERT_MODEL, true);
    SelectFive(t.ExpertShape(), EXPERT_MODEL, false);
    assert Select(t.ExpertShape(), EXPERT_MODEL, true) == [t.etp, t.ep, t.pp];
    assert Select(t.ExpertShape(), EXPERT_MODEL, false) == [1, t.edp];
    ProdTwo(1, t.edp);
    Prod3(t.etp, t.ep, t.pp);
  }

  function Opt(x: nat, b: bool): seq<nat> {
    if b then [x] else []
  }

  lemma {:induction false} SelectAt(s: seq<nat>, m: seq<bool>, keep: bool, i: nat)
    requires |s| == |m| && i < |s|
    ensures Select(s[i..], m[i..], keep) == Opt(s[i], m[i] == keep) + Select(s[i + 1..], m[i + 1..], keep)
  {
    assert s[i..][1..] == s[i + 1..] && m[i..][1..] == m[i + 1..];
  }

  lemma {:induction false} SelectFive(s: seq<nat>, m: seq<bool>, keep: bool)
    requires |s| == |m| == 5
    ensures Select(s, m, keep) ==
            Opt(s[0], m[0] == keep) + (Opt(s[1], m[1] == keep) + (Opt(s[2], m[2] == keep) + (Opt(s[3], m[3] == keep) + (Opt(s[4], m[4] == keep) + []))))
  {
    assert s[0..] == s && m[0..] == m;
    SelectAt(s, m, keep, 0);
    SelectAt(s, m, keep, 1);
    SelectAt(s, m, keep, 2);
    SelectAt(s, m, keep, 3);
    SelectAt(s, m, keep, 4);
    assert Select(s[5..], m[5..], keep) == [];
  }

  lemma Prod3(a: nat, b: nat, c: nat)
    ensures Prod([a, b, c]) == a * (b * c)
  {
    assert [a, b, c][1..] == [b, c];
    ProdTwo(b, c);
  }

  lemma {:induction false} ExpertGroupIsFlat(t: Cut, r: nat)
    requires t.Consistent() && Positive(t.ExpertShape()) && r < Prod(t.ExpertShape())
    ensures var g, p := GroupOf(t.ExpertShape(), EXPERT_DP, r), PosOf(t.ExpertShape(), EXPERT_DP, r);
            && g < GroupCount(t.ExpertShape(), EXPERT_DP) && p < t.k * t.n && 0 < t.etp * t.ep
            && r == Strided(t.etp * t.ep, t.k * t.n, g, p)
            && AllGroups(t.ExpertShape(), EXPERT_DP)[g] == FlatGroup(t.etp * t.ep, t.k * t.n, g)
  {
    var sizes := t.ExpertShape();
    var g, p := GroupOf(sizes, EXPERT_DP, r), PosOf(sizes, EXPERT_DP, r);
    DefaultMasks();
    OneHotCounts(sizes, 3);
    PartBound(sizes, EXPERT_DP, false, r);
    PartBound(sizes, EXPERT_DP, true, r);
    RecombineSplit(sizes, EXPERT_DP, r);
    assert sizes[..3] == [t.etp, 1, t.ep];
    Prod3(t.etp, 1, t.ep);
    forall k | 0 <= k < t.edp
      ensures RankAt(sizes, EXPERT_DP, g, k) == Strided(t.etp * t.ep, t.edp, g, k)
    {
      OneHotRank(sizes, 3, g, k);
    }
  }

  /** The tp-ep-pp group of a rank tells its instance. */
  lemma {:induction false} ModelGroupInstance(t: Cut, r: nat)
    requires t.Consistent() && Positive(t.ExpertShape()) && r < Prod(t.ExpertShape())
    ensures 0 < t.Stage() && 0 < t.Block()
    ensures GroupOf(t.ExpertShape(), EXPERT_MODEL, r) < t.edp
    ensures Inst(r, t.Stage(), t.Block()) == GroupOf(t.ExpertShape(), EXPERT_MODEL, r) / t.k
  {
    var sizes := t.ExpertShape();
    var g, p := GroupOf(sizes, EXPERT_MODEL, r), PosOf(sizes, EXPERT_MODEL, r);
    ExpertCounts(t);
    PartBound(sizes, EXPERT_MODEL, false, r);
    PartBound(sizes, EXPERT_MODEL, true, r);
    RecombineSplit(sizes, EXPERT_MODEL, r);
    MulAssoc(t.etp, t.ep, t.pp);
    ExpertModelRank(t.etp, t.ep, t.edp, t.pp, g, p);
    FlatPosition(t.etp * t.ep, t.k, t.n, p, g);
  }

  /** Consecutive groups joined `k` at a time; a rest of fewer than `k` groups is dropped. */
  function Runs(groups: seq<seq<nat>>, k: nat): seq<seq<nat>>
    requires 0 < k
  {
    if |groups| < k then [] else [Flatten(groups[..k])] + Runs(groups[k..], k)
  }

  lemma {:induction false} RunsStep(groups: seq<seq<nat>>, k: nat, start: nat)
    requires 0 < k && start + k <= |groups|
    ensures Runs(groups[start..], k) == [Flatten(groups[start..start + k])] + Runs(groups[start + k..], k)
  {
    assert groups[start..][..k] == groups[start..start + k] && groups[start..][k..] == groups[start + k..];
  }

  lemma SliceShift(groups: seq<seq<nat>>, k: nat, a: nat, b: nat)
    requires a <= b && b + k <= |groups|
    ensures groups[k..][a..b] == groups[a + k..b + k]
  {
  }

  lemma PredMul(k: nat, n: nat)
    requires 0 < n
    ensures k * n == k * (n - 1) + k
  {
  }

  lemma {:induction false} RunsAt(groups: seq<seq<nat>>, k: nat, n: nat, i: nat, lo: nat)
    requires 0 < k && |groups| == k * n && i < n && lo == k * i
    ensures |Runs(groups, k)| == n && lo + k <= |groups|
    ensures Runs(groups, k)[i] == Flatten(groups[lo..lo + k])
    decreases n
  {
    PredMul(k, n);
    assert groups[0..] == groups;
    RunsStep(groups, k, 0);
    if i > 0 {
      PredMul(k, i);
      RunsAt(groups[k..], k, n - 1, i - 1, lo - k);
      SliceShift(groups, k, lo - k, lo);
    } else if n > 1 {
      RunsAt(groups[k..], k, n - 1, 0, 0);
    } else {
      assert groups[k..] == [];
    }
  }

  lemma {:induction false} RunsSplit(groups: seq<seq<nat>>, k: nat, start: nat)
    requires 0 < k && MultipleOf(start, k) && start <= |groups|
    ensures Runs(groups, k) == Runs(groups[..start], k) + Runs(groups[start..], k)
    decreases start
  {
    if start == 0 {
      assert groups[..0] == [] && groups[0..] == groups;
    } else {
      RunsSplit(groups[k..], k, start - k);
      assert groups[..start][..k] == groups[..k] && groups[..start][k..] == groups[k..][..start - k];
      assert groups[k..][start - k..] == groups[start..];
      var first, mid, rest := [Flatten(groups[..k])], Runs(groups[k..][..start - k], k), Runs(groups[start..], k);
      assert first + (mid + rest) == (first + mid) + rest;
    }
  }

  lemma {:induction false} RunsPrefix(groups: seq<seq<nat>>, k: nat, start: nat)
    requires 0 < k && MultipleOf(start, k) && start + k <= |groups|
    ensures Runs(groups[..start + k], k) == Runs(groups[..start], k) + [Flatten(groups[start..start + k])]
  {
    var prefix := groups[..start + k];
    RunsSplit(prefix, k, start);
    assert prefix[..start] == groups[..start] && prefix[start..] == groups[start..start + k];
    RunsStep(prefix, k, start);
    assert prefix[start + k..] == [] && prefix[start..start + k] == groups[start..start + k];
  }

  /** The loop that accumulates `intra_dist_opt_ranks` and starts afresh after every `k` groups. */
  method BuildInstances(groups: seq<seq<nat>>, k: nat) returns (instances: seq<seq<nat>>)
    requires 0 < k
    ensures instances == Runs(groups, k)
  {
    var ranks: seq<nat> := [];
    instances := [];
    ghost var start := 0;
    for id := 0 to |groups|
      invariant MultipleOf(start, k) && start <= id < start + k
      invariant ranks == Flatten(groups[start..id])
      invariant instances == Runs(groups[..start], k)
    {
      ConcatNext(groups, start, id);
      ranks := ranks + groups[id];
      AtBoundary(k, start, id + 1);
      if (id + 1) % k == 0 {
        RunsPrefix(groups, k, start);
        instances := instances + [ranks];
        start := start + k;
        ranks := [];
      }
    }
    RunsSplit(groups, k, start);
  }

  lemma {:induction false} ConcatNext(groups: seq<seq<nat>>, start: nat, id: nat)
    requires start <= id < |groups|
    ensures Flatten(groups[start..id + 1]) == Flatten(groups[start..id]) + groups[id]
  {
    assert groups[start..id + 1][..id - start] == groups[start..id];
  }

  ghost predicate MultipleOf(n: nat, k: nat)
    requires 0 < k
  {
    n == 0 || (k <= n && MultipleOf(n - k, k))
  }

  lemma {:induction false} MultipleHasQuotient(n: nat, k: nat) returns (q: nat)
    requires 0 < k && MultipleOf(n, k)
    ensures n == k * q
    decreases n
  {
    if n == 0 {
      q := 0;
    } else {
      q := MultipleHasQuotient(n - k, k);
      q := q + 1;
    }
  }

  lemma {:induction false} AtBoundary(k: nat, start: nat, id: nat)
    requires 0 < k && MultipleOf(start, k) && start < id <= start + k
    ensures id % k == 0 <==> id == start + k
  {
    var q := MultipleHasQuotient(start, k);
    if id < start + k {
      DivModUnique(id, k, q, id - start);
    } else {
      DivModUnique(id, k, q + 1, 0);
    }
  }

  lemma {:induction false} ConcatSource(groups: seq<seq<nat>>, r: nat) returns (g: nat)
    requires r in Flatten(groups)
    ensures g < |groups| && r in groups[g]
  {
    g := |groups| - 1;
    if r !in groups[g] {
      g := ConcatSource(groups[..g], r);
    }
  }

  lemma ConcatMembers(groups: seq<seq<nat>>, r: nat)
    ensures r in Flatten(groups) <==> exists g :: 0 <= g < |groups| && r in groups[g]
  {
    if r in Flatten(groups) {
      var g := ConcatSource(groups, r);
    }
    if g :| 0 <= g < |groups| && r in groups[g] {
      var j :| 0 <= j < |groups[g]| && groups[g][j] == r;
      FlattenMember(groups, g, j);
    }
  }

  lemma {:induction false} ConcatDistinct(groups: seq<seq<nat>>)
    requires forall g :: 0 <= g < |groups| ==> StrictlyIncreasing(groups[g])
    requires forall g, h, r :: 0 <= g < h < |groups| && r in groups[g] ==> r !in groups[h]
    ensures NoRepeat(Flatten(groups))
  {
    if groups != [] {
      var last := |groups| - 1;
      var init, tail := Flatten(groups[..last]), groups[last];
      ConcatDistinct(groups[..last]);
      forall i, j | 0 <= i < |init| && 0 <= j < |tail|
        ensures init[i] != tail[j]
      {
        ConcatMembers(groups[..last], init[i]);
        var g :| 0 <= g < last && init[i] in groups[..last][g];
        assert init[i] in groups[g];
      }
    }
  }

  ghost function ModelGroups(t: Cut): seq<seq<nat>>
    requires Positive(t.ExpertShape())
  {
    AllGroups(t.ExpertShape(), EXPERT_MODEL)
  }

  /** The optimizer instances partition the world: instance `i` lists, without repetition, exactly the
      ranks whose block is `i`. */
  lemma {:induction false} InstancesPartitionWorld(t: Cut, i: nat, r: nat)
    requires t.Consistent() && Positive(t.ExpertShape()) && i < t.n
    ensures |Runs(ModelGroups(t), t.k)| == t.n && 0 < t.Stage() && 0 < t.Block()
    ensures NoRepeat(Runs(ModelGroups(t), t.k)[i])
    ensures r in Runs(ModelGroups(t), t.k)[i] <==> r < Prod(t.ExpertShape()) && Inst(r, t.Stage(), t.Block()) == i
  {
    ExpertCounts(t);
    SliceBound(t, i);
    var lo := t.k * i;
    RunsAt(ModelGroups(t), t.k, t.n, i, lo);
    InstanceDistinct(t, lo);
    InstanceMember(t, i, lo, r);
  }

  lemma {:induction false} InstanceDistinct(t: Cut, lo: nat)
    requires t.Consistent() && Positive(t.ExpertShape()) && lo + t.k <= |ModelGroups(t)|
    ensures NoRepeat(Flatten(ModelGroups(t)[lo..lo + t.k]))
  {
    var slice := ModelGroups(t)[lo..lo + t.k];
    GroupsPartitionWorld(t.ExpertShape(), EXPERT_MODEL);
    forall g, h, r | 0 <= g < h < |slice| && r in slice[g]
      ensures r !in slice[h]
    {
      ModelMember(t, lo + g, r);
      ModelMember(t, lo + h, r);
    }
    ConcatDistinct(slice);
  }

  lemma SliceBound(t: Cut, i: nat)
    requires t.Consistent() && i < t.n
    ensures t.k * i + t.k <= t.k * t.n && 0 < t.Stage() && 0 < t.Block()
  {
    MulMono(i + 1, t.n, t.k);
    assert t.k * (i + 1) == t.k * i + t.k;
  }

  lemma {:induction false} ModelMember(t: Cut, g: nat, r: nat)
    requires t.Consistent() && Positive(t.ExpertShape()) && g < |ModelGroups(t)|
    ensures r in ModelGroups(t)[g] <==> r < Prod(t.ExpertShape()) && g == GroupOf(t.ExpertShape(), EXPERT_MODEL, r)
  {
    GroupRanksBound(t.ExpertShape(), EXPERT_MODEL, g);
    if r < Prod(t.ExpertShape()) {
      MemberIff(t.ExpertShape(), EXPERT_MODEL, r);
    }
  }

  lemma {:induction false} InstanceMember(t: Cut, i: nat, lo: nat, r: nat)
    requires t.Consistent() && Positive(t.ExpertShape()) && |ModelGroups(t)| == t.k * t.n
    requires lo == t.k * i && lo + t.k <= |ModelGroups(t)| && 0 < t.Stage() && 0 < t.Block()
    ensures r in Flatten(ModelGroups(t)[lo..lo + t.k]) <==>
            r < Prod(t.ExpertShape()) && Inst(r, t.Stage(), t.Block()) == i
  {
    var slice := ModelGroups(t)[lo..lo + t.k];
    ConcatMembers(slice, r);
    if g :| 0 <= g < |slice| && r in slice[g] {
      ModelMember(t, lo + g, r);
      GroupDecides(t, i, lo, lo + g, r);
    }
    if r < Prod(t.ExpertShape()) && Inst(r, t.Stage(), t.Block()) == i {
      var h := GroupWithin(t, i, lo, r);
      assert r in slice[h - lo];
    }
  }

  lemma {:induction false} GroupWithin(t: Cut, i: nat, lo: nat, r: nat) returns (h: nat)
    requires t.Consistent() && Positive(t.ExpertShape()) && r < Prod(t.ExpertShape()) && |ModelGroups(t)| == t.k * t.n
    requires lo == t.k * i && 0 < t.Stage() && 0 < t.Block() && Inst(r, t.Stage(), t.Block()) == i
    ensures lo <= h < lo + t.k && h < |ModelGroups(t)| && r in ModelGroups(t)[h]
  {
    h := GroupOf(t.ExpertShape(), EXPERT_MODEL, r);
    ModelGroupInstance(t, r);
    DivModId(h, t.k);
    ModelMember(t, h, r);
  }

  lemma {:induction false} GroupDecides(t: Cut, i: nat, lo: nat, h: nat, r: nat)
    requires t.Consistent() && Positive(t.ExpertShape()) && r < Prod(t.ExpertShape())
    requires lo == t.k * i && lo <= h < lo + t.k && h == GroupOf(t.ExpertShape(), EXPERT_MODEL, r)
    ensures 0 < t.Stage() && 0 < t.Block() && Inst(r, t.Stage(), t.Block()) == i
  {
    ModelGroupInstance(t, r);
    DivModUnique(h, t.k, i, h - lo);
  }

  lemma {:induction false} ShapesMultiply(t: Cut)
    requires t.Consistent()
    ensures Positive(t.DecoderShape()) && Positive(t.ExpertShape())
    ensures Prod(t.DecoderShape()) == t.World() && Prod(t.ExpertShape()) == t.World()
  {
    DecoderCounts(t);
    CountsMultiply(t.DecoderShape(), DP_CP);
    assert t.cp * t.dp * (t.tp * t.pp) == t.tp * (t.cp * t.dp) * t.pp by {
      MulAssoc(t.tp, t.cp * t.dp, t.pp);
      MulAssoc(t.cp * t.dp, t.tp, t.pp);
    }
    ExpertCounts(t);
    CountsMultiply(t.ExpertShape(), EXPERT_MODEL);
    MulAssoc(t.etp, t.ep, t.pp);
    assert t.etp * t.ep * t.pp * t.edp == t.etp * t.ep * t.edp * t.pp by {
      MulAssoc(t.etp * t.ep, t.pp, t.edp);
      MulAssoc(t.etp * t.ep, t.edp, t.pp);
    }
  }

  /** The attention dp-cp group of a rank. */
  ghost function AttentionGroup(t: Cut, r: nat): (group: seq<nat>)
    requires t.Consistent() && r < t.World()
  {
    ShapesMultiply(t);
    PartBound(t.DecoderShape(), DP_CP, false, r);
    AllGroups(t.DecoderShape(), DP_CP)[GroupOf(t.DecoderShape(), DP_CP, r)]
  }

  /** The expert dp group of a rank. */
  ghost function ExpertGroup(t: Cut, r: nat): (group: seq<nat>)
    requires t.Consistent() && r < t.World()
  {
    ShapesMultiply(t);
    PartBound(t.ExpertShape(), EXPERT_DP, false, r);
    AllGroups(t.ExpertShape(), EXPERT_DP)[GroupOf(t.ExpertShape(), EXPERT_DP, r)]
  }

  /** For every rank: its attention chunk (a slice of its dp-cp group) and its expert intra-partial
      group consist of ranks of its own optimizer instance, and the inter-instance group built from
      the expert dp groups is the one the attention dp-cp groups would give. */
  lemma {:induction false} InstancesAgree(t: Cut, r: nat)
    requires t.Consistent() && r < t.World()
    ensures Positive(t.DecoderShape()) && Positive(t.ExpertShape()) && 0 < t.Stage() && 0 < t.Block()
    ensures var p, p' := PosOf(t.DecoderShape(), DP_CP, r), PosOf(t.ExpertShape(), EXPERT_DP, r);
            var attention, expert := AttentionGroup(t, r), ExpertGroup(t, r);
            && |attention| == Prod([t.q, t.n]) && |expert| == Prod([t.k, t.n]) && p < |attention| && p' < |expert|
            && attention[p] == r && expert[p'] == r
            && 0 <= t.q * (p / t.q) <= t.q * (p / t.q) + t.q <= |attention|
            && OwnGroup(attention, [t.q, t.n], 0, p) == attention[t.q * (p / t.q)..t.q * (p / t.q) + t.q]
            && (forall x :: x in OwnGroup(attention, [t.q, t.n], 0, p) ==> x < t.World() && Inst(x, t.Stage(), t.Block()) == Inst(r, t.Stage(), t.Block()))
            && (forall x :: x in OwnGroup(expert, [t.k, t.n], 0, p') ==> x < t.World() && Inst(x, t.Stage(), t.Block()) == Inst(r, t.Stage(), t.Block()))
            && OwnGroup(attention, [t.q, t.n], 1, p) == OwnGroup(expert, [t.k, t.n], 1, p')
            && OwnGroup(expert, [t.k, t.n], 1, p') == Peers(r, t.Stage(), t.Block(), t.n)
  {
    ShapesMultiply(t);
    ProdTwo(t.q, t.n);
    ProdTwo(t.k, t.n);
    AttentionSide(t, r);
    ExpertSide(t, r);
  }

  lemma {:induction false} AttentionSide(t: Cut, r: nat)
    requires t.Consistent() && r < t.World()
    requires Positive(t.DecoderShape()) && Prod([t.q, t.n]) == t.q * t.n
    ensures 0 < t.Stage() && 0 < t.Block()
    ensures var p, group := PosOf(t.DecoderShape(), DP_CP, r), AttentionGroup(t, r);
            && |group| == t.q * t.n && p < |group| && group[p] == r
            && 0 <= t.q * (p / t.q) <= t.q * (p / t.q) + t.q <= |group|
            && OwnGroup(group, [t.q, t.n], 0, p) == group[t.q * (p / t.q)..t.q * (p / t.q) + t.q]
            && (forall x :: x in OwnGroup(group, [t.q, t.n], 0, p) ==> x < t.World() && Inst(x, t.Stage(), t.Block()) == Inst(r, t.Stage(), t.Block()))
            && OwnGroup(group, [t.q, t.n], 1, p) == Peers(r, t.Stage(), t.Block(), t.n)
  {
    ShapesMultiply(t);
    DecoderGroupIsFlat(t, r);
    var g, p := GroupOf(t.DecoderShape(), DP_CP, r), PosOf(t.DecoderShape(), DP_CP, r);
    FlatPosition(t.tp, t.q, t.n, g, p);
    IntraIsSlice(FlatGroup(t.tp, t.q * t.n, g), t.q, t.n, p);
    FlatInter(t.tp, t.q, t.n, g, p);
    forall x | x in OwnGroup(FlatGroup(t.tp, t.q * t.n, g), [t.q, t.n], 0, p)
      ensures x < t.World() && Inst(x, t.Stage(), t.Block()) == p / t.q
    {
      GroupRanksBound(t.DecoderShape(), DP_CP, g);
      FlatIntra(t.tp, t.q, t.n, g, p, x);
    }
  }

  lemma {:induction false} ExpertSide(t: Cut, r: nat)
    requires t.Consistent() && r < t.World()
    requires Positive(t.ExpertShape()) && Prod([t.k, t.n]) == t.k * t.n
    ensures 0 < t.Stage() && 0 < t.Block()
    ensures var p, group := PosOf(t.ExpertShape(), EXPERT_DP, r), ExpertGroup(t, r);
            && |group| == t.k * t.n && p < |group| && group[p] == r
            && (forall x :: x in OwnGroup(group, [t.k, t.n], 0, p) ==> x < t.World() && Inst(x, t.Stage(), t.Block()) == Inst(r, t.Stage(), t.Block()))
            && OwnGroup(group, [t.k, t.n], 1, p) == Peers(r, t.Stage(), t.Block(), t.n)
  {
    ShapesMultiply(t);
    ExpertGroupIsFlat(t, r);
    var s := t.etp * t.ep;
    var g, p := GroupOf(t.ExpertShape(), EXPERT_DP, r), PosOf(t.ExpertShape(), EXPERT_DP, r);
    FlatPosition(s, t.k, t.n, g, p);
    FlatInter(s, t.k, t.n, g, p);
    forall x | x in OwnGroup(FlatGroup(s, t.k * t.n, g), [t.k, t.n], 0, p)
      ensures x < t.World() && Inst(x, t.Stage(), t.Block()) == p / t.k
    {
      GroupRanksBound(t.ExpertShape(), EXPERT_DP, g);
      FlatIntra(s, t.k, t.n, g, p, x);
    }
  }

  /** The attention intra-partial chunk of a rank, and its expert intra-partial group. */
  ghost function AttentionChunk(t: Cut, r: nat): (chunk: seq<nat>)
    requires t.Consistent() && r < t.World()
  {
    InstancesAgree(t, r);
    OwnGroup(AttentionGroup(t, r), [t.q, t.n], 0, PosOf(t.DecoderShape(), DP_CP, r))
  }

  ghost function ExpertIntra(t: Cut, r: nat): (group: seq<nat>)
    requires t.Consistent() && r < t.World()
  {
    InstancesAgree(t, r);
    OwnGroup(ExpertGroup(t, r), [t.k, t.n], 0, PosOf(t.ExpertShape(), EXPERT_DP, r))
  }

  ghost function InstanceLists(t: Cut): seq<seq<nat>>
    requires t.Consistent()
  {
    ShapesMultiply(t);
    Runs(ModelGroups(t), t.k)
  }

  /** Every rank is listed in one optimizer instance, together with its whole attention chunk and its
      whole expert intra-partial group. */
  lemma {:induction false} RankStaysInInstance(t: Cut, r: nat, x: nat)
    requires t.Consistent() && r < t.World()
    ensures 0 < t.Stage() && 0 < t.Block() && Inst(r, t.Stage(), t.Block()) < |InstanceLists(t)| == t.n
    ensures r in InstanceLists(t)[Inst(r, t.Stage(), t.Block())]
    ensures x in AttentionChunk(t, r) || x in ExpertIntra(t, r) ==> x in InstanceLists(t)[Inst(r, t.Stage(), t.Block())]
  {
    ShapesMultiply(t);
    InstancesAgree(t, r);
    InstanceBound(t, r);
    var i := Inst(r, t.Stage(), t.Block());
    InstancesPartitionWorld(t, i, r);
    InstancesPartitionWorld(t, i, x);
  }

  lemma {:induction false} InstanceBound(t: Cut, r: nat)
    requires t.Consistent() && r < t.World()
    ensures 0 < t.Stage() && 0 < t.Block() && Inst(r, t.Stage(), t.Block()) < t.n
  {
    ShapesMultiply(t);
    ModelGroupInstance(t, r);
    DivBound(GroupOf(t.ExpertShape(), EXPERT_MODEL, r), t.k, t.n);
  }

  lemma {:induction false} AttentionPart(t: Cut, r: nat, x: nat)
    requires t.Consistent() && r < t.World() && x in AttentionGroup(t, r)
    requires 0 < t.Stage() && 0 < t.Block() && Inst(x, t.Stage(), t.Block()) == Inst(r, t.Stage(), t.Block())
    ensures x in AttentionChunk(t, r)
  {
    ShapesMultiply(t);
    ProdTwo(t.q, t.n);
    DecoderGroupIsFlat(t, r);
    var g, p := GroupOf(t.DecoderShape(), DP_CP, r), PosOf(t.DecoderShape(), DP_CP, r);
    FlatPosition(t.tp, t.q, t.n, g, p);
    FlatOwnPart(t.tp, t.q, t.n, g, p, x);
  }

  lemma {:induction false} ExpertPart(t: Cut, r: nat, x: nat)
    requires t.Consistent() && r < t.World() && x in ExpertGroup(t, r)
    requires 0 < t.Stage() && 0 < t.Block() && Inst(x, t.Stage(), t.Block()) == Inst(r, t.Stage(), t.Block())
    ensures x in ExpertIntra(t, r)
  {
    ShapesMultiply(t);
    ProdTwo(t.k, t.n);
    ExpertGroupIsFlat(t, r);
    var s := t.etp * t.ep;
    var g, p := GroupOf(t.ExpertShape(), EXPERT_DP, r), PosOf(t.ExpertShape(), EXPERT_DP, r);
    FlatPosition(s, t.k, t.n, g, p);
    FlatOwnPart(s, t.k, t.n, g, p, x);
  }

  /** The attention chunk of a rank is exactly the part of its dp-cp group that lies in its instance, and its expert
      intra-partial group exactly that part of its expert dp group. */
  lemma {:induction false} IntraIsOwnPart(t: Cut, r: nat, x: nat)
    requires t.Consistent() && r < t.World()
    ensures 0 < t.Stage() && 0 < t.Block() && Inst(r, t.Stage(), t.Block()) < |InstanceLists(t)|
    ensures var own := InstanceLists(t)[Inst(r, t.Stage(), t.Block())];
            && r in own
            && (x in AttentionChunk(t, r) <==> x in AttentionGroup(t, r) && x in own)
            && (x in ExpertIntra(t, r) <==> x in ExpertGroup(t, r) && x in own)
  {
    InstancesAgree(t, r);
    RankStaysInInstance(t, r, x);
    ShapesMultiply(t);
    InstancesPartitionWorld(t, Inst(r, t.Stage(), t.Block()), x);
    OwnWithin(t, r, x);
    if x in InstanceLists(t)[Inst(r, t.Stage(), t.Block())] {
      if x in AttentionGroup(t, r) {
        AttentionPart(t, r, x);
      }
      if x in ExpertGroup(t, r) {
        ExpertPart(t, r, x);
      }
    }
  }

  lemma {:induction false} OwnWithin(t: Cut, r: nat, x: nat)
    requires t.Consistent() && r < t.World()
    ensures x in AttentionChunk(t, r) ==> x in AttentionGroup(t, r)
    ensures x in ExpertIntra(t, r) ==> x in ExpertGroup(t, r)
  {
    InstancesAgree(t, r);
    var p := PosOf(t.ExpertShape(), EXPERT_DP, r);
    ProdTwo(t.k, t.n);
    IntraIsSlice(ExpertGroup(t, r), t.k, t.n, p);
  }
}
