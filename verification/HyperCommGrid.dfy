/** The n-dimensional communication grid and its registry of process groups. */
module HyperCommGrid {
  import opened MixedRadix
  import opened RankGroups
  import opened Sequences
  import opened Einops
  import opened Sorting
  import opened Strings

  /** A request: a single dimension name, or a list of names. */
  datatype Dims = One(name: string) | Many(names: seq<string>)

  lemma {:induction false} ReverseNoRepeat(names: seq<string>)
    requires NoRepeat(names)
    ensures NoRepeat(Reverse(names))
  {
    if names != [] {
      ReverseNoRepeat(names[1..]);
      ReverseMembers(names[1..]);
      var rest := Reverse(names[1..]);
      forall i | 0 <= i < |rest|
        ensures rest[i] != names[0]
      {
        assert rest[i] in names[1..];
      }
    }
  }

  /** `list.index`: position of the first occurrence. */
  function IndexOf(s: seq<string>, x: string): (i: nat)
    requires x in s
    ensures i < |s| && s[i] == x
  {
    if s[0] == x then 0 else 1 + IndexOf(s[1..], x)
  }

  /** `_order_dims`: the requested names in the order of the reversed dimensions, and their key. */
  function OrderDims(dimNames: seq<string>, dims: Dims): (r: Result<(seq<string>, string)>) {
    match dims
    case One(d) => Ok(([d], d))
    case Many(ds) =>
      var axes := Reverse(dimNames);
      if ds == [] || exists i :: 0 <= i < |ds| && ds[i] !in axes then Err
      else
        var indices := OrderedIndices(axes, ds);
        IndicesInRange(axes, ds);
        var ordered := seq(|indices|, i requires 0 <= i < |indices| => axes[indices[i]]);
        Ok((ordered, Join(ordered, '-')))
  }

  function Indices(axes: seq<string>, ds: seq<string>): (r: seq<nat>)
    requires forall i :: 0 <= i < |ds| ==> ds[i] in axes
    ensures |r| == |ds|
  {
    seq(|ds|, i requires 0 <= i < |ds| => IndexOf(axes, ds[i]))
  }

  function Self(n: nat): int {
    n
  }

  function OrderedIndices(axes: seq<string>, ds: seq<string>): (r: seq<nat>)
    requires forall i :: 0 <= i < |ds| ==> ds[i] in axes
  {
    SortBy<nat>(Indices(axes, ds), Self)
  }

  lemma IndicesInRange(axes: seq<string>, ds: seq<string>)
    requires forall i :: 0 <= i < |ds| ==> ds[i] in axes
    ensures forall n: nat :: n in OrderedIndices(axes, ds) <==> n in Indices(axes, ds)
    ensures forall i :: 0 <= i < |OrderedIndices(axes, ds)| ==> OrderedIndices(axes, ds)[i] < |axes|
  {
    var idx := Indices(axes, ds);
    var sorted := OrderedIndices(axes, ds);
    SortBySorts<nat>(idx, Self);
    forall n: nat
      ensures n in sorted <==> n in idx
    {
      assert n in sorted <==> n in multiset(sorted);
      assert n in idx <==> n in multiset(idx);
    }
    forall i | 0 <= i < |sorted|
      ensures sorted[i] < |axes|
    {
      assert sorted[i] in idx;
    }
  }

  /** Sorting distinct indices gives a strictly increasing list. */
  lemma SortDistinct(idx: seq<nat>)
    requires NoRepeat(idx)
    ensures StrictlyIncreasing(SortBy<nat>(idx, Self))
  {
    var s := SortBy<nat>(idx, Self);
    SortBySorts<nat>(idx, Self);
    forall i, j | 0 <= i < j < |s|
      ensures s[i] < s[j]
    {
      assert Self(s[i]) <= Self(s[j]);
      if s[i] == s[j] {
        TwiceIn(s, i, j);
        CountPermuted(s, idx, s[i]);
        OnceIn(idx, s[i]);
      }
    }
  }

  function Front(a: seq<nat>): seq<nat>
    requires a != []
  {
    a[..|a| - 1]
  }

  lemma WithoutLast(a: seq<nat>, n: nat)
    requires StrictlyIncreasing(a) && a != []
    ensures n in Front(a) <==> n in a && n != a[|a| - 1]
    ensures n in a ==> n <= a[|a| - 1]
  {
    assert a == Front(a) + [a[|a| - 1]];
  }

  lemma SameLast(a: seq<nat>, b: seq<nat>)
    requires StrictlyIncreasing(a) && StrictlyIncreasing(b) && a != [] && b != []
    requires forall n: nat :: n in a <==> n in b
    ensures a[|a| - 1] == b[|b| - 1]
    ensures forall n: nat :: n in Front(a) <==> n in Front(b)
  {
    var p, q := |a| - 1, |b| - 1;
    assert a[p] in b && b[q] in a;
    WithoutLast(a, b[q]);
    WithoutLast(b, a[p]);
    forall n: nat
      ensures n in Front(a) <==> n in Front(b)
    {
      WithoutLast(a, n);
      WithoutLast(b, n);
    }
  }

  lemma Nonempty(a: seq<nat>, b: seq<nat>)
    requires a != [] && forall n: nat :: n in a <==> n in b
    ensures b != []
  {
    assert a[0] in b;
  }

  /** An increasing list is determined by its elements. */
  lemma {:induction false} IncreasingUnique(a: seq<nat>, b: seq<nat>)
    requires StrictlyIncreasing(a) && StrictlyIncreasing(b)
    requires forall n: nat :: n in a <==> n in b
    ensures a == b
  {
    if b != [] {
      Nonempty(b, a);
    }
    if a != [] {
      var p, q := |a| - 1, |b| - 1;
      Nonempty(a, b);
      SameLast(a, b);
      IncreasingUnique(Front(a), Front(b));
      assert a == Front(a) + [a[p]] && b == Front(b) + [b[q]];
    }
  }

  /** The positions, in increasing order, of the axes in `dims`. */
  function Positions(axes: seq<string>, dims: set<string>): (r: seq<nat>) {
    if axes == [] then []
    else
      var last := |axes| - 1;
      var rest := Positions(axes[..last], dims);
      if axes[last] in dims then rest + [last] else rest
  }

  lemma {:induction false} PositionsIncrease(axes: seq<string>, dims: set<string>)
    ensures forall i :: 0 <= i < |Positions(axes, dims)| ==> Positions(axes, dims)[i] < |axes|
    ensures StrictlyIncreasing(Positions(axes, dims))
  {
    if axes != [] {
      PositionsIncrease(axes[..|axes| - 1], dims);
    }
  }

  lemma {:induction false} PositionsMembers(axes: seq<string>, dims: set<string>, n: nat)
    ensures n in Positions(axes, dims) <==> n < |axes| && axes[n] in dims
  {
    if axes != [] {
      var last := |axes| - 1;
      PositionsMembers(axes[..last], dims, n);
      if n < last {
        assert axes[..last][n] == axes[n];
      }
    }
  }

  lemma {:induction false} PositionsFilter(axes: seq<string>, dims: set<string>)
    ensures |Filter(axes, dims, true)| == |Positions(axes, dims)|
    ensures forall i :: 0 <= i < |Positions(axes, dims)| ==>
              Positions(axes, dims)[i] < |axes| && Filter(axes, dims, true)[i] == axes[Positions(axes, dims)[i]]
  {
    if axes != [] {
      PositionsFilter(axes[..|axes| - 1], dims);
    }
  }

  /** A request the grid can serve: known names, none repeated, at least one. */
  ghost predicate Servable(dimNames: seq<string>, dims: Dims) {
    match dims
    case One(d) => d in dimNames
    case Many(ds) => ds != [] && NoRepeat(ds) && forall i :: 0 <= i < |ds| ==> ds[i] in dimNames
  }

  ghost function DimSet(dims: Dims): set<string> {
    match dims
    case One(d) => {d}
    case Many(ds) => set x | x in ds
  }

  /** The registry key of a set of dimensions. */
  function Key(dimNames: seq<string>, dims: set<string>): string {
    Join(Filter(Reverse(dimNames), dims, true), '-')
  }

  /** Whatever the order in which dimensions are requested, `_order_dims` yields the reversed
      dimension list restricted to them, and the key depends only on the set. */
  lemma {:induction false} OrderDimsCanonical(dimNames: seq<string>, dims: Dims)
    requires NoRepeat(dimNames) && Servable(dimNames, dims)
    ensures OrderDims(dimNames, dims) == Ok((Filter(Reverse(dimNames), DimSet(dims), true), Key(dimNames, DimSet(dims))))
  {
    var axes := Reverse(dimNames);
    ReverseMembers(dimNames);
    match dims {
      case One(d) =>
        SingleFilter(dimNames, d);
      case Many(ds) =>
        OrderedIsFilter(dimNames, ds);
    }
  }

  lemma {:induction false} SingleFilter(dimNames: seq<string>, d: string)
    requires NoRepeat(dimNames) && d in dimNames
    ensures Filter(Reverse(dimNames), {d}, true) == [d]
  {
    var axes := Reverse(dimNames);
    ReverseMembers(dimNames);
    ReverseNoRepeat(dimNames);
    SingleFilterAxes(axes, d);
  }

  lemma {:induction false} SingleFilterAxes(axes: seq<string>, d: string)
    requires NoRepeat(axes)
    ensures Filter(axes, {d}, true) == if d in axes then [d] else []
  {
    if axes != [] {
      SingleFilterAxes(axes[..|axes| - 1], d);
      assert axes == axes[..|axes| - 1] + [axes[|axes| - 1]];
    }
  }

  lemma {:induction false} OrderedIsFilter(dimNames: seq<string>, ds: seq<string>)
    requires NoRepeat(dimNames) && Servable(dimNames, Many(ds))
    ensures OrderDims(dimNames, Many(ds)).Ok?
    ensures OrderDims(dimNames, Many(ds)).value.0 == Filter(Reverse(dimNames), DimSet(Many(ds)), true)
  {
    var axes, dims := Reverse(dimNames), DimSet(Many(ds));
    ReverseMembers(dimNames);
    ReverseNoRepeat(dimNames);
    IndicesInRange(axes, ds);
    SortedIndices(axes, ds);
    PositionsFilter(axes, dims);
  }

  lemma {:induction false} SortedIndices(axes: seq<string>, ds: seq<string>)
    requires NoRepeat(axes) && NoRepeat(ds) && forall i :: 0 <= i < |ds| ==> ds[i] in axes
    ensures OrderedIndices(axes, ds) == Positions(axes, DimSet(Many(ds)))
  {
    var dims, idx := DimSet(Many(ds)), Indices(axes, ds);
    SortDistinct(idx);
    IndicesInRange(axes, ds);
    PositionsIncrease(axes, dims);
    forall n: nat
      ensures n in idx <==> n in Positions(axes, dims)
    {
      PositionsMembers(axes, dims, n);
      if n < |axes| && axes[n] in dims {
        var i :| 0 <= i < |ds| && ds[i] == axes[n];
        assert idx[i] == n;
      }
    }
    IncreasingUnique(OrderedIndices(axes, ds), Positions(axes, dims));
  }

  /** `dict(zip(dim_names, shape))`. */
  function ShapeOf(dimNames: seq<string>, shape: seq<nat>): Shape
    requires |dimNames| == |shape| && Positive(shape)
  {
    a => if a in dimNames then shape[IndexOf(dimNames, a)] else 1
  }

  lemma ShapeSizes(dimNames: seq<string>, shape: seq<nat>)
    requires NoRepeat(dimNames) && |dimNames| == |shape| && Positive(shape)
    ensures SizesOf(dimNames, ShapeOf(dimNames, shape)) == shape
  {
    forall i | 0 <= i < |dimNames|
      ensures ShapeOf(dimNames, shape)(dimNames[i]) == shape[i]
    {
      var j := IndexOf(dimNames, dimNames[i]);
      assert dimNames[j] == dimNames[i];
    }
  }

  /** A grid whose names are usable as axis names: distinct and free of the key separator. */
  ghost predicate WellNamed(dimNames: seq<string>) {
    NoRepeat(dimNames) && forall i :: 0 <= i < |dimNames| ==> dimNames[i] != "" && Free(dimNames[i], '-')
  }

  /** Of three dimensions the outer two, requested in either order. */
  lemma OuterKey(a: string, b: string, c: string)
    requires a != b && b != c && a != c
    ensures OrderDims([a, b, c], Many([c, a])) == Ok(([c, a], c + "-" + a))
    ensures OrderDims([a, b, c], Many([a, c])) == Ok(([c, a], c + "-" + a))
  {
    var ds: set<string> := {c, a};
    ReverseThree(a, b, c);
    FilterEnds(c, b, a, ds);
    assert [c, a][1..] == [a];
    OuterServable(a, b, c, [c, a]);
    OuterServable(a, b, c, [a, c]);
    assert DimSet(Many([c, a])) == ds && DimSet(Many([a, c])) == ds;
  }

  lemma OuterServable(a: string, b: string, c: string, names: seq<string>)
    requires a != b && b != c && a != c && (names == [c, a] || names == [a, c])
    ensures OrderDims([a, b, c], Many(names)) ==
            Ok((Filter(Reverse([a, b, c]), DimSet(Many(names)), true), Join(Filter(Reverse([a, b, c]), DimSet(Many(names)), true), '-')))
  {
    var all := [a, b, c];
    assert all[0] == a && all[2] == c;
    assert Servable(all, Many(names));
    OrderDimsCanonical(all, Many(names));
  }

  /** The documented example: the key of dp and tp. */
  lemma DocumentedKey()
    ensures OrderDims(["tp", "cp", "dp"], Many(["dp", "tp"])) == Ok((["dp", "tp"], "dp-tp"))
    ensures OrderDims(["tp", "cp", "dp"], Many(["tp", "dp"])) == Ok((["dp", "tp"], "dp-tp"))
  {
    assert "tp"[0] != "cp"[0] && "tp"[0] != "dp"[0] && "cp"[0] != "dp"[0];
    OuterKey("tp", "cp", "dp");
    assert "dp" + "-" + "tp" == "dp-tp";
  }

  lemma FilterEnds(a: string, b: string, c: string, ds: set<string>)
    requires a in ds && b !in ds && c in ds
    ensures Filter([a, b, c], ds, true) == [a, c]
  {
    assert [a, b, c][..2] == [a, b] && [a, b][..1] == [a] && [a][..0] == [];
    assert Filter([a], ds, true) == [a];
    assert Filter([a, b], ds, true) == [a];
  }

  /** Different sets of dimensions have different keys. */
  lemma {:induction false} KeyInjective(dimNames: seq<string>, dims: set<string>, dims': set<string>)
    requires WellNamed(dimNames) && dims != {} && dims' != {}
    requires (forall d :: d in dims ==> d in dimNames) && (forall d :: d in dims' ==> d in dimNames)
    requires Key(dimNames, dims) == Key(dimNames, dims')
    ensures dims == dims'
  {
    var axes := Reverse(dimNames);
    FilterOfDims(dimNames, dims);
    FilterOfDims(dimNames, dims');
    JoinInjective(Filter(axes, dims, true), Filter(axes, dims', true), '-');
    assert dims == set d | d in Filter(axes, dims, true);
    assert dims' == set d | d in Filter(axes, dims', true);
  }

  lemma {:induction false} FilterOfDims(dimNames: seq<string>, dims: set<string>)
    requires WellNamed(dimNames) && dims != {} && forall d :: d in dims ==> d in dimNames
    ensures var f := Filter(Reverse(dimNames), dims, true);
            f != [] && AllFree(f, '-') && forall d :: d in f <==> d in dims
  {
    var f := Filter(Reverse(dimNames), dims, true);
    ReverseMembers(dimNames);
    FilterMembers(Reverse(dimNames), dims, true);
    var d :| d in dims;
    assert d in f;
    forall i | 0 <= i < |f|
      ensures Free(f[i], '-')
    {
      assert f[i] in dimNames;
    }
  }

  /** The enumeration a grid must register for a set of dimensions. */
  ghost function Enumeration(dimNames: seq<string>, shape: seq<nat>, rankOffset: nat, dims: set<string>): seq<seq<nat>>
    requires |dimNames| == |shape| && Positive(shape)
  {
    Shift(AllGroups(shape, MaskOf(dimNames, dims)), rankOffset)
  }

  /** The axes that are not requested, in order. */
  method RemainingDims(axes: seq<string>, dims: seq<string>) returns (remaining: seq<string>)
    ensures remaining == Filter(axes, DimSet(Many(dims)), false)
  {
    remaining := [];
    for i := 0 to |axes|
      invariant remaining == Filter(axes[..i], DimSet(Many(dims)), false)
    {
      assert axes[..i + 1][..i] == axes[..i];
      if axes[i] !in dims {
        remaining := remaining + [axes[i]];
      }
    }
    assert axes[..|axes|] == axes;
  }

  /** `_gen_rank_enum`: reshape to the reversed dimensions and regroup. The rearrangement is refused
      when a requested name is unknown or repeated. Names in the order of the reversed dimensions list the
      enumeration itself; in any other order every row lists its ranks in the order of the requested names. */
  method GenRankEnum(dimNames: seq<string>, shape: seq<nat>, rankOffset: nat, dims: seq<string>) returns (r: Result<seq<seq<nat>>>)
    requires NoRepeat(dimNames) && |dimNames| == |shape| && Positive(shape)
    ensures r.Ok? <==> NoRepeat(dims) && forall i :: 0 <= i < |dims| ==> dims[i] in dimNames
    ensures r.Ok? ==> var ds := DimSet(Many(dims));
              SameAxes(dims, Filter(Reverse(dimNames), ds, true))
              && Regrouped(r.value, Enumeration(dimNames, shape, rankOffset, ds), dims, Filter(Reverse(dimNames), ds, true), ShapeOf(dimNames, shape))
    ensures forall ds: set<string> :: (forall d :: d in ds ==> d in dimNames) && dims == Filter(Reverse(dimNames), ds, true)
              ==> r == Ok(Enumeration(dimNames, shape, rankOffset, ds))
  {
    var axes := Reverse(dimNames);
    var remaining := RemainingDims(axes, dims);
    ReverseMembers(dimNames);
    var shapeDict := ShapeOf(dimNames, shape);
    if NoRepeat(dims) && forall i :: 0 <= i < |dims| ==> dims[i] in axes {
      var input := seq(Size(axes, shapeDict), i => rankOffset + i);
      r := Ok(Rearrange(input, axes, remaining, dims, shapeDict));
      EnumRegroups(dimNames, shape, rankOffset, dims);
    } else {
      r := Err;
    }
    forall ds: set<string> | (forall d :: d in ds ==> d in dimNames) && dims == Filter(axes, ds, true)
      ensures r == Ok(Enumeration(dimNames, shape, rankOffset, ds))
    {
      EnumExact(dimNames, shape, rankOffset, ds);
      assert ds == DimSet(Many(dims));
    }
  }

  /** Names in the order of the reversed dimensions. */
  lemma EnumExact(dimNames: seq<string>, shape: seq<nat>, rankOffset: nat, ds: set<string>)
    requires NoRepeat(dimNames) && |dimNames| == |shape| && Positive(shape) && forall d :: d in ds ==> d in dimNames
    ensures var dims := Filter(Reverse(dimNames), ds, true);
            && NoRepeat(dims) && (forall d :: d in dims <==> d in ds)
            && RankRows(dimNames, ShapeOf(dimNames, shape), ds, dims, rankOffset) == Enumeration(dimNames, shape, rankOffset, ds)
  {
    var axes := Reverse(dimNames);
    ReverseMembers(dimNames);
    ReverseNoRepeat(dimNames);
    FilterMembers(axes, ds, true);
    FilterNoRepeat(axes, ds, true);
    RearrangeIsMaskedEnumeration(dimNames, ShapeOf(dimNames, shape), ds, rankOffset);
    ShapeSizes(dimNames, shape);
  }

  /** Names in any order. */
  lemma EnumRegroups(dimNames: seq<string>, shape: seq<nat>, rankOffset: nat, dims: seq<string>)
    requires NoRepeat(dimNames) && |dimNames| == |shape| && Positive(shape)
    requires NoRepeat(dims) && forall i :: 0 <= i < |dims| ==> dims[i] in dimNames
    ensures var ds, dict := DimSet(Many(dims)), ShapeOf(dimNames, shape);
            var columns := Filter(Reverse(dimNames), ds, true);
            && SameAxes(dims, columns)
            && Regrouped(RankRows(dimNames, dict, ds, dims, rankOffset), Enumeration(dimNames, shape, rankOffset, ds), dims, columns, dict)
  {
    var axes, ds := Reverse(dimNames), DimSet(Many(dims));
    ReverseMembers(dimNames);
    ReverseNoRepeat(dimNames);
    FilterMembers(axes, ds, true);
    FilterNoRepeat(axes, ds, true);
    RearrangeRegroups(dimNames, ShapeOf(dimNames, shape), ds, dims, rankOffset);
    ShapeSizes(dimNames, shape);
  }

  /** If the ordered request can be rearranged, the request was servable. */
  lemma {:induction false} OrderedServable(dimNames: seq<string>, ds: seq<string>)
    requires OrderDims(dimNames, Many(ds)).Ok? && NoRepeat(OrderDims(dimNames, Many(ds)).value.0)
    ensures Servable(dimNames, Many(ds))
  {
    var axes := Reverse(dimNames);
    ReverseMembers(dimNames);
    IndicesInRange(axes, ds);
    var idx, sorted, ordered := Indices(axes, ds), OrderedIndices(axes, ds), OrderDims(dimNames, Many(ds)).value.0;
    SortBySorts<nat>(idx, Self);
    forall p, q | 0 <= p < q < |sorted|
      ensures sorted[p] != sorted[q]
    {
      assert ordered[p] != ordered[q];
    }
    forall i, j | 0 <= i < j < |ds|
      ensures ds[i] != ds[j]
    {
      if ds[i] == ds[j] {
        TwiceIn(idx, i, j);
        CountPermuted(sorted, idx, idx[i]);
        OnceIn(sorted, idx[i]);
      }
    }
  }

  lemma {:induction false} ServableDims(dimNames: seq<string>, dims: Dims)
    requires Servable(dimNames, dims)
    ensures DimSet(dims) != {} && forall d :: d in DimSet(dims) ==> d in dimNames
  {
    match dims {
      case One(d) =>
        assert d in DimSet(dims);
      case Many(ds) =>
        assert ds[0] in DimSet(dims);
    }
  }

  /** `pgs` holds exactly the enumerations of the dimension sets in `created`. */
  ghost predicate Registry(dimNames: seq<string>, shape: seq<nat>, rankOffset: nat, created: set<set<string>>, pgs: map<string, seq<seq<nat>>>)
    requires |dimNames| == |shape| && Positive(shape)
  {
    && (forall ds :: ds in created ==> ds != {} && forall d :: d in ds ==> d in dimNames)
    && (forall ds :: ds in created ==> Key(dimNames, ds) in pgs && pgs[Key(dimNames, ds)] == Enumeration(dimNames, shape, rankOffset, ds))
    && (forall k :: k in pgs ==> exists ds :: ds in created && k == Key(dimNames, ds))
  }

  lemma {:induction false} KeyPresentIff(dimNames: seq<string>, shape: seq<nat>, rankOffset: nat, created: set<set<string>>, pgs: map<string, seq<seq<nat>>>, ds: set<string>)
    requires |dimNames| == |shape| && Positive(shape) && WellNamed(dimNames)
    requires Registry(dimNames, shape, rankOffset, created, pgs)
    requires ds != {} && forall d :: d in ds ==> d in dimNames
    ensures Key(dimNames, ds) in pgs <==> ds in created
  {
    if Key(dimNames, ds) in pgs {
      var ds' :| ds' in created && Key(dimNames, ds) == Key(dimNames, ds');
      KeyInjective(dimNames, ds, ds');
    }
  }

  lemma {:induction false} RegistryAdd(dimNames: seq<string>, shape: seq<nat>, rankOffset: nat, created: set<set<string>>, pgs: map<string, seq<seq<nat>>>, ds: set<string>)
    requires |dimNames| == |shape| && Positive(shape) && WellNamed(dimNames)
    requires Registry(dimNames, shape, rankOffset, created, pgs)
    requires ds != {} && (forall d :: d in ds ==> d in dimNames) && ds !in created
    ensures Registry(dimNames, shape, rankOffset, created + {ds},
                     pgs[Key(dimNames, ds) := Enumeration(dimNames, shape, rankOffset, ds)])
  {
    KeyPresentIff(dimNames, shape, rankOffset, created, pgs, ds);
    var pgs' := pgs[Key(dimNames, ds) := Enumeration(dimNames, shape, rankOffset, ds)];
    forall k | k in pgs'
      ensures exists ds' :: ds' in created + {ds} && k == Key(dimNames, ds')
    {
      if k == Key(dimNames, ds) {
        assert ds in created + {ds};
      } else {
        var ds' :| ds' in created && k == Key(dimNames, ds');
        assert ds' in created + {ds};
      }
    }
  }

  /** Order the request, refuse an existing key, and enumerate: the key and rank lists to register. */
  method Prepare(dimNames: seq<string>, shape: seq<nat>, rankOffset: nat, ghost created: set<set<string>>, pgs: map<string, seq<seq<nat>>>, dims: Dims)
    returns (r: Result<(string, seq<seq<nat>>)>)
    requires |dimNames| == |shape| && Positive(shape) && WellNamed(dimNames)
    requires Registry(dimNames, shape, rankOffset, created, pgs)
    ensures r.Ok? <==> Servable(dimNames, dims) && DimSet(dims) !in created
    ensures r.Ok? ==> r.value == (Key(dimNames, DimSet(dims)), Enumeration(dimNames, shape, rankOffset, DimSet(dims)))
  {
    if Servable(dimNames, dims) {
      OrderDimsCanonical(dimNames, dims);
      ServableDims(dimNames, dims);
      KeyPresentIff(dimNames, shape, rankOffset, created, pgs, DimSet(dims));
    }
    var ordered := OrderDims(dimNames, dims);
    if ordered.Err? || ordered.value.1 in pgs {
      return Err;
    }
    var enumeration := EnumerateOrdered(dimNames, shape, rankOffset, dims, ordered.value.0);
    if enumeration.Err? {
      return Err;
    }
    r := Ok((ordered.value.1, enumeration.value));
  }

  /** Enumerates an ordered request. */
  method EnumerateOrdered(dimNames: seq<string>, shape: seq<nat>, rankOffset: nat, ghost dims: Dims, ordered: seq<string>)
    returns (r: Result<seq<seq<nat>>>)
    requires |dimNames| == |shape| && Positive(shape) && WellNamed(dimNames)
    requires OrderDims(dimNames, dims).Ok? && ordered == OrderDims(dimNames, dims).value.0
    ensures r.Ok? <==> Servable(dimNames, dims)
    ensures r.Ok? ==> r.value == Enumeration(dimNames, shape, rankOffset, DimSet(dims))
  {
    r := GenRankEnum(dimNames, shape, rankOffset, ordered);
    if r.Ok? {
      OrderedKnown(dimNames, dims);
    }
    if Servable(dimNames, dims) {
      OrderDimsCanonical(dimNames, dims);
      ServableDims(dimNames, dims);
      assert r == Ok(Enumeration(dimNames, shape, rankOffset, DimSet(dims)));
    }
  }

  lemma OrderedKnown(dimNames: seq<string>, dims: Dims)
    requires OrderDims(dimNames, dims).Ok? && NoRepeat(OrderDims(dimNames, dims).value.0)
    requires var ordered := OrderDims(dimNames, dims).value.0; forall i :: 0 <= i < |ordered| ==> ordered[i] in dimNames
    ensures Servable(dimNames, dims)
  {
    match dims {
      case One(d) =>
        assert OrderDims(dimNames, dims).value.0[0] == d;
      case Many(ds) =>
        OrderedServable(dimNames, ds);
    }
  }

  /** The request names this set of dimensions: a list of its names in any order, or its key as one name. */
  ghost predicate Requests(dimNames: seq<string>, dims: Dims, ds: set<string>) {
    match dims
    case One(d) => d == Key(dimNames, ds)
    case Many(names) => Servable(dimNames, dims) && DimSet(dims) == ds
  }

  /** A request leads to the key of a set exactly when it names that set. */
  lemma {:induction false} KeyOfRequest(dimNames: seq<string>, dims: Dims, ds: set<string>)
    requires WellNamed(dimNames) && ds != {} && forall d :: d in ds ==> d in dimNames
    ensures Requests(dimNames, dims, ds) <==> OrderDims(dimNames, dims).Ok? && OrderDims(dimNames, dims).value.1 == Key(dimNames, ds)
  {
    if dims.Many? && OrderDims(dimNames, dims).Ok? {
      OrderedFree(dimNames, dims.names);
      FilterOfDims(dimNames, ds);
      if OrderDims(dimNames, dims).value.1 == Key(dimNames, ds) {
        var axes := Reverse(dimNames);
        JoinInjective(OrderDims(dimNames, dims).value.0, Filter(axes, ds, true), '-');
        ReverseNoRepeat(dimNames);
        FilterNoRepeat(axes, ds, true);
        OrderedServable(dimNames, dims.names);
      }
    }
    if Servable(dimNames, dims) && dims.Many? {
      OrderDimsCanonical(dimNames, dims);
      ServableDims(dimNames, dims);
      if Key(dimNames, DimSet(dims)) == Key(dimNames, ds) {
        KeyInjective(dimNames, DimSet(dims), ds);
      }
    }
  }

  /** The names a list request is ordered into are names of the grid. */
  lemma OrderedFree(dimNames: seq<string>, ds: seq<string>)
    requires WellNamed(dimNames) && OrderDims(dimNames, Many(ds)).Ok?
    ensures OrderDims(dimNames, Many(ds)).value.0 != [] && AllFree(OrderDims(dimNames, Many(ds)).value.0, '-')
  {
    var axes := Reverse(dimNames);
    ReverseMembers(dimNames);
    IndicesInRange(axes, ds);
    SortBySorts<nat>(Indices(axes, ds), Self);
    var ordered := OrderDims(dimNames, Many(ds)).value.0;
    forall i | 0 <= i < |ordered|
      ensures Free(ordered[i], '-')
    {
      assert ordered[i] in axes;
      assert ordered[i] in dimNames;
    }
  }

  /** A servable request names one set, the set of its names. */
  lemma ServableRequests(dimNames: seq<string>, shape: seq<nat>, rankOffset: nat, created: set<set<string>>, pgs: map<string, seq<seq<nat>>>, dims: Dims)
    requires |dimNames| == |shape| && Positive(shape) && WellNamed(dimNames)
    requires Registry(dimNames, shape, rankOffset, created, pgs) && Servable(dimNames, dims)
    ensures (exists ds :: ds in created && Requests(dimNames, dims, ds)) <==> DimSet(dims) in created
  {
    OrderDimsCanonical(dimNames, dims);
    ServableDims(dimNames, dims);
    assert Requests(dimNames, dims, DimSet(dims));
    forall ds | ds in created && Requests(dimNames, dims, ds)
      ensures ds == DimSet(dims)
    {
      KeyOfRequest(dimNames, dims, ds);
      KeyInjective(dimNames, ds, DimSet(dims));
    }
  }

  class Grid {
    const shape: seq<nat>
    const dimNames: seq<string>
    const rankOffset: nat
    var pgs: map<string, seq<seq<nat>>>
    ghost var created: set<set<string>>

    ghost predicate Valid()
      reads this
    {
      && |shape| == |dimNames| && Positive(shape) && WellNamed(dimNames)
      && Registry(dimNames, shape, rankOffset, created, pgs)
    }

    constructor (shape: seq<nat>, dimNames: seq<string>, rankOffset: nat)
      requires |shape| == |dimNames|
      ensures created == {} && pgs == map[] && (Positive(shape) && WellNamed(dimNames) ==> Valid())
      ensures this.shape == shape && this.dimNames == dimNames && this.rankOffset == rankOffset
    {
      this.shape, this.dimNames, this.rankOffset := shape, dimNames, rankOffset;
      pgs, created := map[], {};
    }

    /** `create_pg`: register the enumeration of a new set of dimensions, once. */
    method CreatePg(dims: Dims) returns (r: Result<seq<seq<nat>>>)
      requires Valid()
      modifies this
      ensures Valid()
      ensures r.Ok? <==> Servable(dimNames, dims) && DimSet(dims) !in old(created)
      ensures r.Ok? ==> r.value == Enumeration(dimNames, shape, rankOffset, DimSet(dims))
      ensures created == old(created) + if r.Ok? then {DimSet(dims)} else {}
      ensures pgs == if r.Ok? then old(pgs)[Key(dimNames, DimSet(dims)) := r.value] else old(pgs)
    {
      var prepared := Prepare(dimNames, shape, rankOffset, created, pgs, dims);
      if prepared.Err? {
        return Err;
      }
      ServableDims(dimNames, dims);
      RegistryAdd(dimNames, shape, rankOffset, created, pgs, DimSet(dims));
      var (key, enumeration) := prepared.value;
      pgs := pgs[key := enumeration];
      created := created + {DimSet(dims)};
      r := Ok(enumeration);
    }

    /** `get_pg`: finds the enumeration of a created set that the request names, and nothing else. */
    method GetPg(dims: Dims) returns (r: Result<seq<seq<nat>>>)
      requires Valid()
      ensures r.Ok? <==> exists ds :: ds in created && Requests(dimNames, dims, ds)
      ensures forall ds :: ds in created && Requests(dimNames, dims, ds) ==> r == Ok(Enumeration(dimNames, shape, rankOffset, ds))
      ensures Servable(dimNames, dims) ==> (r.Ok? <==> DimSet(dims) in created)
    {
      ghost var known := created;
      forall ds | ds in known
        ensures Requests(dimNames, dims, ds) <==> OrderDims(dimNames, dims).Ok? && OrderDims(dimNames, dims).value.1 == Key(dimNames, ds)
      {
        KeyOfRequest(dimNames, dims, ds);
      }
      if Servable(dimNames, dims) {
        ServableRequests(dimNames, shape, rankOffset, created, pgs, dims);
      }
      var ordered := OrderDims(dimNames, dims);
      if ordered.Err? || ordered.value.1 !in pgs {
        return Err;
      }
      r := Ok(pgs[ordered.value.1]);
    }
  }

  /** The constructor's checks: matching lengths, a non-negative offset, and room in the world. */
  method NewGrid(shape: seq<nat>, dimNames: seq<string>, rankOffset: int, worldSize: nat) returns (r: Result<Grid>)
    ensures r.Ok? <==> |shape| == |dimNames| && 0 <= rankOffset && rankOffset + Prod(shape) <= worldSize
    ensures r.Ok? ==> fresh(r.value) && r.value.created == {} && r.value.pgs == map[]
    ensures r.Ok? && Positive(shape) && WellNamed(dimNames) ==> r.value.Valid()
    ensures r.Ok? ==> r.value.shape == shape && r.value.dimNames == dimNames && r.value.rankOffset == rankOffset
  {
    if |shape| != |dimNames| || rankOffset < 0 || Prod(shape) > worldSize - rankOffset {
      return Err;
    }
    var grid := new Grid(shape, dimNames, rankOffset);
    r := Ok(grid);
  }
}
