/** The rearrangement of a flat array: named axes in row-major order (last axis fastest), regrouped
    into rows and columns. This is what `einops.rearrange` computes for a pattern
    `(axes) -> (left) (right)`. */
module Einops {
  import opened Arith
  import opened MixedRadix
  import opened RankGroups
  import opened Sequences

  type Pos = n: nat | 0 < n witness 1
  type Shape = string -> Pos
  type Index = string -> nat

  function Size(axes: seq<string>, shape: Shape): (n: nat)
    ensures 0 < n
  {
    if axes == [] then 1
    else
      var last := |axes| - 1;
      shape(axes[last]) * Size(axes[..last], shape)
  }

  /** Flat position of an index tuple, in Horner form. */
  function Ravel(axes: seq<string>, shape: Shape, idx: Index): nat {
    if axes == [] then 0
    else
      var last := |axes| - 1;
      idx(axes[last]) + shape(axes[last]) * Ravel(axes[..last], shape, idx)
  }

  /** The index that flat position `n` has on axis `a`. */
  function Unravel(axes: seq<string>, shape: Shape, n: nat, a: string): nat
    decreases axes
  {
    if axes == [] then 0
    else
      var last := |axes| - 1;
      if a == axes[last] then n % shape(a) else Unravel(axes[..last], shape, n / shape(axes[last]), a)
  }

  /** The index tuple of row `i` and column `j`. */
  function CellTuple(left: seq<string>, right: seq<string>, shape: Shape, i: nat, j: nat): Index {
    a => if a in right then Unravel(right, shape, j, a) else Unravel(left, shape, i, a)
  }

  lemma {:induction false} UnravelBound(axes: seq<string>, shape: Shape, n: nat, a: string)
    ensures Unravel(axes, shape, n, a) < shape(a)
    decreases axes
  {
    if axes != [] {
      UnravelBound(axes[..|axes| - 1], shape, n / shape(axes[|axes| - 1]), a);
    }
  }

  lemma {:induction false} RavelBound(axes: seq<string>, shape: Shape, idx: Index)
    requires forall a :: idx(a) < shape(a)
    ensures Ravel(axes, shape, idx) < Size(axes, shape)
  {
    if axes != [] {
      var last := |axes| - 1;
      RavelBound(axes[..last], shape, idx);
      TwoDigitsBound(idx(axes[last]), Ravel(axes[..last], shape, idx), shape(axes[last]), Size(axes[..last], shape));
    }
  }

  function CellIndex(axes: seq<string>, left: seq<string>, right: seq<string>, shape: Shape, i: nat, j: nat): (n: nat)
    ensures n < Size(axes, shape)
  {
    var idx := CellTuple(left, right, shape, i, j);
    assert forall a :: idx(a) < shape(a) by {
      forall a
        ensures idx(a) < shape(a)
      {
        UnravelBound(left, shape, i, a);
        UnravelBound(right, shape, j, a);
      }
    }
    RavelBound(axes, shape, idx);
    Ravel(axes, shape, idx)
  }

  /** `rearrange(input, "(axes) -> (left) (right)")`, for axes split into `left` and `right`. */
  function Rearrange<T>(input: seq<T>, axes: seq<string>, left: seq<string>, right: seq<string>, shape: Shape): (rows: seq<seq<T>>)
    requires |input| == Size(axes, shape)
  {
    seq(Size(left, shape), i requires 0 <= i =>
      seq(Size(right, shape), j requires 0 <= j => input[CellIndex(axes, left, right, shape, i, j)]))
  }

  function Reverse(s: seq<string>): (r: seq<string>)
    ensures |r| == |s|
  {
    if s == [] then [] else Reverse(s[1..]) + [s[0]]
  }

  lemma {:induction false} ReverseMembers(s: seq<string>)
    ensures forall x :: x in Reverse(s) <==> x in s
  {
    if s != [] {
      ReverseMembers(s[1..]);
      assert s == [s[0]] + s[1..];
    }
  }

  /** The axes whose membership in `dims` equals `keep`, in order. */
  function Filter(axes: seq<string>, dims: set<string>, keep: bool): (r: seq<string>) {
    if axes == [] then []
    else
      var last := |axes| - 1;
      var rest := Filter(axes[..last], dims, keep);
      if (axes[last] in dims) == keep then rest + [axes[last]] else rest
  }

  lemma {:induction false} FilterMembers(axes: seq<string>, dims: set<string>, keep: bool)
    ensures forall a :: a in Filter(axes, dims, keep) <==> a in axes && (a in dims) == keep
  {
    if axes != [] {
      var last := |axes| - 1;
      FilterMembers(axes[..last], dims, keep);
      assert axes == axes[..last] + [axes[last]];
    }
  }

  lemma {:induction false} FilterNoRepeat(axes: seq<string>, dims: set<string>, keep: bool)
    requires NoRepeat(axes)
    ensures NoRepeat(Filter(axes, dims, keep))
  {
    if axes != [] {
      var last := |axes| - 1;
      FilterNoRepeat(axes[..last], dims, keep);
      var rest := Filter(axes[..last], dims, keep);
      if (axes[last] in dims) == keep {
        FilterMembers(axes[..last], dims, keep);
        assert (rest + [axes[last]])[..|rest|] == rest;
      }
    }
  }

  function MaskOf(names: seq<string>, dims: set<string>): (mask: seq<bool>)
    ensures |mask| == |names|
  {
    seq(|names|, i requires 0 <= i < |names| => names[i] in dims)
  }

  function SizesOf(names: seq<string>, shape: Shape): (r: seq<nat>)
    ensures |r| == |names| && Positive(r)
  {
    seq(|names|, i requires 0 <= i < |names| => shape(names[i]))
  }

  /** What the head of the dimension list (the last axis) adds to the filtered axes. */
  lemma {:induction false} FilterReverse(names: seq<string>, dims: set<string>, keep: bool)
    requires names != []
    ensures var rest := Filter(Reverse(names[1..]), dims, keep);
            Filter(Reverse(names), dims, keep) == if (names[0] in dims) == keep then rest + [names[0]] else rest
  {
    assert Reverse(names)[..|names| - 1] == Reverse(names[1..]);
  }

  lemma {:induction false} NamesUnfold(names: seq<string>, shape: Shape, dims: set<string>)
    requires names != []
    ensures SizesOf(names, shape)[0] == shape(names[0]) && SizesOf(names, shape)[1..] == SizesOf(names[1..], shape)
    ensures MaskOf(names, dims)[0] == (names[0] in dims) && MaskOf(names, dims)[1..] == MaskOf(names[1..], dims)
  {
  }

  lemma {:induction false} SizeAppend(axes: seq<string>, a: string, shape: Shape)
    ensures Size(axes + [a], shape) == shape(a) * Size(axes, shape)
  {
    assert (axes + [a])[..|axes|] == axes;
  }

  /** The sizes of the row and column axes are the group count and the group size. */
  lemma {:induction false} FilterSize(names: seq<string>, shape: Shape, dims: set<string>, keep: bool)
    ensures Size(Filter(Reverse(names), dims, keep), shape) == Prod(Select(SizesOf(names, shape), MaskOf(names, dims), keep))
  {
    if names != [] {
      FilterSize(names[1..], shape, dims, keep);
      FilterReverse(names, dims, keep);
      NamesUnfold(names, shape, dims);
      CountsUnfold(SizesOf(names, shape), MaskOf(names, dims));
      SizeAppend(Filter(Reverse(names[1..]), dims, keep), names[0], shape);
    }
  }

  /** `idx` gives the axes the row-major digits of `n`. */
  ghost predicate Spells(axes: seq<string>, shape: Shape, n: nat, idx: Index)
    decreases axes
  {
    axes != [] ==>
      var last := |axes| - 1;
      idx(axes[last]) == n % shape(axes[last]) && Spells(axes[..last], shape, n / shape(axes[last]), idx)
  }

  lemma {:induction false} UnravelSpells(axes: seq<string>, shape: Shape, n: nat, idx: Index)
    requires NoRepeat(axes) && forall a :: a in axes ==> idx(a) == Unravel(axes, shape, n, a)
    ensures Spells(axes, shape, n, idx)
    decreases axes
  {
    if axes != [] {
      var last := |axes| - 1;
      UnravelSpells(axes[..last], shape, n / shape(axes[last]), idx);
    }
  }

  lemma {:induction false} SpellsAppend(axes: seq<string>, a: string, shape: Shape, n: nat, idx: Index)
    requires Spells(axes + [a], shape, n, idx)
    ensures idx(a) == n % shape(a) && Spells(axes, shape, n / shape(a), idx)
  {
    assert (axes + [a])[..|axes|] == axes;
  }

  /** Regrouping the reversed dimension list and reading the flat index is the masked enumeration. */
  lemma {:induction false} RavelIsRank(names: seq<string>, shape: Shape, dims: set<string>, i: nat, j: nat, idx: Index)
    requires Spells(Filter(Reverse(names), dims, false), shape, i, idx)
    requires Spells(Filter(Reverse(names), dims, true), shape, j, idx)
    ensures Ravel(Reverse(names), shape, idx) == RankAt(SizesOf(names, shape), MaskOf(names, dims), i, j)
    decreases |names|
  {
    if names != [] {
      var s := shape(names[0]);
      var n := if names[0] in dims then j else i;
      var low, high := n % s, n / s;
      SpellsStep(names, shape, dims, i, j, idx, low, high);
      if names[0] in dims {
        RavelIsRank(names[1..], shape, dims, i, high, idx);
      } else {
        RavelIsRank(names[1..], shape, dims, high, j, idx);
      }
      FoldStep(names, shape, dims, i, j, idx, low, high);
    }
  }

  lemma {:induction false} FoldStep(names: seq<string>, shape: Shape, dims: set<string>, i: nat, j: nat, idx: Index, low: nat, high: nat)
    requires names != [] && idx(names[0]) == low
    requires low == (if names[0] in dims then j else i) % shape(names[0]) && high == (if names[0] in dims then j else i) / shape(names[0])
    requires Ravel(Reverse(names[1..]), shape, idx) == var sizes, mask := SizesOf(names[1..], shape), MaskOf(names[1..], dims);
             if names[0] in dims then RankAt(sizes, mask, i, high) else RankAt(sizes, mask, high, j)
    ensures Ravel(Reverse(names), shape, idx) == RankAt(SizesOf(names, shape), MaskOf(names, dims), i, j)
  {
    RankUnfold(names, shape, dims, i, j, low, high);
    RavelReverse(names, shape, idx);
  }

  lemma {:induction false} SpellsStep(names: seq<string>, shape: Shape, dims: set<string>, i: nat, j: nat, idx: Index, low: nat, high: nat)
    requires names != []
    requires low == (if names[0] in dims then j else i) % shape(names[0]) && high == (if names[0] in dims then j else i) / shape(names[0])
    requires Spells(Filter(Reverse(names), dims, false), shape, i, idx) && Spells(Filter(Reverse(names), dims, true), shape, j, idx)
    ensures idx(names[0]) == low
    ensures Spells(Filter(Reverse(names[1..]), dims, false), shape, if names[0] in dims then i else high, idx)
    ensures Spells(Filter(Reverse(names[1..]), dims, true), shape, if names[0] in dims then high else j, idx)
  {
    FilterReverse(names, dims, false);
    FilterReverse(names, dims, true);
    if names[0] in dims {
      SpellsAppend(Filter(Reverse(names[1..]), dims, true), names[0], shape, j, idx);
    } else {
      SpellsAppend(Filter(Reverse(names[1..]), dims, false), names[0], shape, i, idx);
    }
  }

  lemma {:induction false} RavelReverse(names: seq<string>, shape: Shape, idx: Index)
    requires names != []
    ensures Ravel(Reverse(names), shape, idx) == idx(names[0]) + shape(names[0]) * Ravel(Reverse(names[1..]), shape, idx)
  {
    assert Reverse(names)[..|names| - 1] == Reverse(names[1..]);
  }

  lemma {:induction false} RankUnfold(names: seq<string>, shape: Shape, dims: set<string>, i: nat, j: nat, low: nat, high: nat)
    requires names != []
    requires low == (if names[0] in dims then j else i) % shape(names[0]) && high == (if names[0] in dims then j else i) / shape(names[0])
    ensures var sizes, mask := SizesOf(names[1..], shape), MaskOf(names[1..], dims);
            RankAt(SizesOf(names, shape), MaskOf(names, dims), i, j) ==
            low + shape(names[0]) * (if names[0] in dims then RankAt(sizes, mask, i, high) else RankAt(sizes, mask, high, j))
  {
    NamesUnfold(names, shape, dims);
  }

  lemma {:induction false} CellIsRank(names: seq<string>, shape: Shape, dims: set<string>, i: nat, j: nat)
    requires NoRepeat(Reverse(names))
    ensures CellIndex(Reverse(names), Filter(Reverse(names), dims, false), Filter(Reverse(names), dims, true), shape, i, j)
         == RankAt(SizesOf(names, shape), MaskOf(names, dims), i, j)
  {
    var left, right := Filter(Reverse(names), dims, false), Filter(Reverse(names), dims, true);
    var idx := CellTuple(left, right, shape, i, j);
    FilterNoRepeat(Reverse(names), dims, false);
    FilterNoRepeat(Reverse(names), dims, true);
    FilterMembers(Reverse(names), dims, false);
    FilterMembers(Reverse(names), dims, true);
    UnravelSpells(left, shape, i, idx);
    UnravelSpells(right, shape, j, idx);
    RavelIsRank(names, shape, dims, i, j, idx);
  }

  /** The rearrangement of `base, base + 1, ...` with the reversed dimensions as axes and the columns `right`. */
  function RankRows(names: seq<string>, shape: Shape, dims: set<string>, right: seq<string>, base: nat): (rows: seq<seq<nat>>) {
    var axes := Reverse(names);
    Rearrange(seq(Size(axes, shape), i => base + i), axes, Filter(axes, dims, false), right, shape)
  }

  function RankEnum(names: seq<string>, shape: Shape, dims: set<string>, base: nat): (rows: seq<seq<nat>>) {
    RankRows(names, shape, dims, Filter(Reverse(names), dims, true), base)
  }

  /** For distinct dimension names and any subset of them, rearranging `base, base + 1, ...` with the
      reversed dimensions as axes lists the masked rank groups, shifted by `base`. */
  lemma {:induction false} RearrangeIsMaskedEnumeration(names: seq<string>, shape: Shape, dims: set<string>, base: nat)
    requires NoRepeat(Reverse(names))
    ensures RankEnum(names, shape, dims, base) == Shift(AllGroups(SizesOf(names, shape), MaskOf(names, dims)), base)
  {
    var rows, groups := RankEnum(names, shape, dims, base), Shift(AllGroups(SizesOf(names, shape), MaskOf(names, dims)), base);
    FilterSize(names, shape, dims, false);
    forall i | 0 <= i < |rows|
      ensures rows[i] == groups[i]
    {
      RowIsGroup(names, shape, dims, base, i);
    }
  }

  lemma {:induction false} RowIsGroup(names: seq<string>, shape: Shape, dims: set<string>, base: nat, i: nat)
    requires NoRepeat(Reverse(names))
    requires i < Size(Filter(Reverse(names), dims, false), shape)
    ensures i < GroupCount(SizesOf(names, shape), MaskOf(names, dims))
    ensures RankEnum(names, shape, dims, base)[i] == Shift(AllGroups(SizesOf(names, shape), MaskOf(names, dims)), base)[i]
  {
    FilterSize(names, shape, dims, false);
    FilterSize(names, shape, dims, true);
    var row, group := RankEnum(names, shape, dims, base)[i], Shift(AllGroups(SizesOf(names, shape), MaskOf(names, dims)), base)[i];
    forall j | 0 <= j < |row|
      ensures row[j] == group[j]
    {
      CellIsRank(names, shape, dims, i, j);
    }
  }

  // ---- Columns in another order ----

  lemma {:induction false} RavelSame(axes: seq<string>, shape: Shape, idx: Index, idx': Index)
    requires forall a :: a in axes ==> idx(a) == idx'(a)
    ensures Ravel(axes, shape, idx) == Ravel(axes, shape, idx')
  {
    if axes != [] {
      RavelSame(axes[..|axes| - 1], shape, idx, idx');
    }
  }

  lemma {:induction false} RavelSpells(axes: seq<string>, shape: Shape, idx: Index)
    requires forall a :: a in axes ==> idx(a) < shape(a)
    ensures Spells(axes, shape, Ravel(axes, shape, idx), idx)
  {
    if axes != [] {
      var last := |axes| - 1;
      RavelSpells(axes[..last], shape, idx);
      var rest, s := Ravel(axes[..last], shape, idx), shape(axes[last]);
      assert s * rest == rest * s;
      DivModUnique(idx(axes[last]) + s * rest, s, rest, idx(axes[last]));
    }
  }

  lemma {:induction false} SpellsRavel(axes: seq<string>, shape: Shape, n: nat, idx: Index)
    requires Spells(axes, shape, n, idx) && n < Size(axes, shape)
    ensures Ravel(axes, shape, idx) == n
    decreases axes
  {
    if axes != [] {
      var last := |axes| - 1;
      var s := shape(axes[last]);
      DivBound(n, s, Size(axes[..last], shape));
      SpellsRavel(axes[..last], shape, n / s, idx);
      DivModId(n, s);
      assert s * (n / s) == n / s * s;
    }
  }

  lemma {:induction false} SpellsUnravel(axes: seq<string>, shape: Shape, n: nat, idx: Index, a: string)
    requires Spells(axes, shape, n, idx) && a in axes
    ensures Unravel(axes, shape, n, a) == idx(a)
    decreases axes
  {
    var last := |axes| - 1;
    if a != axes[last] {
      SpellsUnravel(axes[..last], shape, n / shape(axes[last]), idx, a);
    }
  }

  /** The index that flat position `j` over the axes `from` gives each axis. */
  function Unraveled(from: seq<string>, shape: Shape, j: nat): Index {
    a => Unravel(from, shape, j, a)
  }

  /** Flat position `j` over the axes `from`, read over the axes `to`. */
  function Reread(from: seq<string>, to: seq<string>, shape: Shape, j: nat): nat {
    Ravel(to, shape, Unraveled(from, shape, j))
  }

  ghost predicate SameAxes(a: seq<string>, b: seq<string>) {
    NoRepeat(a) && NoRepeat(b) && forall x :: x in a <==> x in b
  }

  lemma UnraveledBound(from: seq<string>, shape: Shape, j: nat)
    ensures forall a :: Unraveled(from, shape, j)(a) < shape(a)
  {
    forall a
      ensures Unraveled(from, shape, j)(a) < shape(a)
    {
      UnravelBound(from, shape, j, a);
    }
  }

  /** Reading over other axes and back is the identity, so it permutes the positions. */
  lemma {:induction false} RereadBack(from: seq<string>, to: seq<string>, shape: Shape, j: nat)
    requires SameAxes(from, to) && j < Size(from, shape)
    ensures Reread(from, to, shape, j) < Size(to, shape)
    ensures Reread(to, from, shape, Reread(from, to, shape, j)) == j
  {
    var idx, n := Unraveled(from, shape, j), Reread(from, to, shape, j);
    UnraveledBound(from, shape, j);
    RavelBound(to, shape, idx);
    RavelSpells(to, shape, idx);
    forall a | a in from
      ensures Unraveled(to, shape, n)(a) == idx(a)
    {
      SpellsUnravel(to, shape, n, idx, a);
    }
    RavelSame(from, shape, Unraveled(to, shape, n), idx);
    UnravelSpells(from, shape, j, idx);
    SpellsRavel(from, shape, j, idx);
  }

  /** Whatever the order of the column axes, a cell is the cell of the masked enumeration whose column has the same
      index on every axis. */
  lemma {:induction false} CellReread(names: seq<string>, shape: Shape, dims: set<string>, right: seq<string>, i: nat, j: nat)
    requires NoRepeat(Reverse(names)) && SameAxes(right, Filter(Reverse(names), dims, true))
    ensures CellIndex(Reverse(names), Filter(Reverse(names), dims, false), right, shape, i, j)
         == RankAt(SizesOf(names, shape), MaskOf(names, dims), i, Reread(right, Filter(Reverse(names), dims, true), shape, j))
  {
    var left, columns := Filter(Reverse(names), dims, false), Filter(Reverse(names), dims, true);
    var idx := CellTuple(left, right, shape, i, j);
    FilterNoRepeat(Reverse(names), dims, false);
    FilterMembers(Reverse(names), dims, false);
    FilterMembers(Reverse(names), dims, true);
    UnravelSpells(left, shape, i, idx);
    UnraveledBound(right, shape, j);
    RavelSpells(columns, shape, idx);
    RavelSame(columns, shape, idx, Unraveled(right, shape, j));
    RavelIsRank(names, shape, dims, i, Reread(right, columns, shape, j), idx);
  }

  lemma {:induction false} SizeRemove(axes: seq<string>, shape: Shape, i: nat)
    requires i < |axes|
    ensures Size(axes, shape) == shape(axes[i]) * Size(axes[..i] + axes[i + 1..], shape)
  {
    var last := |axes| - 1;
    if i == last {
      assert axes[..i] + axes[i + 1..] == axes[..i];
    } else {
      var rest := axes[..last];
      var fewer := rest[..i] + rest[i + 1..];
      SizeRemove(rest, shape, i);
      SizeAppend(fewer, axes[last], shape);
      assert fewer + [axes[last]] == axes[..i] + axes[i + 1..];
      var s: nat, t: nat, n := shape(axes[last]), shape(axes[i]), Size(fewer, shape);
      assert Size(axes, shape) == s * Size(rest, shape) == s * (t * n);
      MulAssoc(s, t, n);
    }
  }

  lemma {:induction false} SizeSame(a: seq<string>, b: seq<string>, shape: Shape)
    requires SameAxes(a, b)
    ensures Size(a, shape) == Size(b, shape)
  {
    if a == [] {
      assert forall k :: 0 <= k < |b| ==> b[k] in b;
    } else {
      var last := |a| - 1;
      assert a[last] in b;
      var i :| 0 <= i < |b| && b[i] == a[last];
      var rest := b[..i] + b[i + 1..];
      SameWithout(a, b, i);
      SizeSame(a[..last], rest, shape);
      SizeRemove(b, shape, i);
    }
  }

  lemma SameWithout(a: seq<string>, b: seq<string>, i: nat)
    requires SameAxes(a, b) && a != [] && i < |b| && b[i] == a[|a| - 1]
    ensures SameAxes(a[..|a| - 1], b[..i] + b[i + 1..])
  {
    var last, rest := |a| - 1, b[..i] + b[i + 1..];
    assert forall j :: 0 <= j < |rest| ==> rest[j] == if j < i then b[j] else b[j + 1];
    forall x
      ensures x in a[..last] <==> x in rest
    {
      if x in a[..last] {
        assert x in a && x != a[last];
        var j :| 0 <= j < |b| && b[j] == x;
        assert rest[if j < i then j else j - 1] == x;
      }
      if x in rest {
        var j :| 0 <= j < |rest| && rest[j] == x;
        assert x in b && x != b[i];
      }
    }
  }

  /** The rows list the same ranks as the groups, each group in the order of its columns read over other axes. */
  ghost predicate Regrouped(rows: seq<seq<nat>>, groups: seq<seq<nat>>, from: seq<string>, to: seq<string>, shape: Shape) {
    && |rows| == |groups|
    && forall i :: 0 <= i < |rows| ==> |rows[i]| == |groups[i]| && RowReread(rows[i], groups[i], from, to, shape)
  }

  ghost predicate RowReread(row: seq<nat>, group: seq<nat>, from: seq<string>, to: seq<string>, shape: Shape) {
    forall j :: 0 <= j < |row| ==> Reread(from, to, shape, j) < |group| && row[j] == group[Reread(from, to, shape, j)]
  }

  /** A row lists exactly the ranks of its group. */
  lemma {:induction false} RowSameRanks(row: seq<nat>, group: seq<nat>, from: seq<string>, to: seq<string>, shape: Shape, x: nat)
    requires SameAxes(from, to) && |row| == |group| == Size(to, shape) && RowReread(row, group, from, to, shape)
    ensures x in row <==> x in group
  {
    if x in group {
      var k :| 0 <= k < |group| && group[k] == x;
      RereadBack(to, from, shape, k);
      SizeSame(from, to, shape);
      assert row[Reread(to, from, shape, k)] == x;
    }
  }

  lemma {:induction false} CellRegroups(names: seq<string>, shape: Shape, dims: set<string>, right: seq<string>, base: nat, i: nat, j: nat)
    requires NoRepeat(Reverse(names)) && SameAxes(right, Filter(Reverse(names), dims, true))
    requires i < Size(Filter(Reverse(names), dims, false), shape) && j < Size(right, shape)
    requires i < GroupCount(SizesOf(names, shape), MaskOf(names, dims))
    ensures var k, groups := Reread(right, Filter(Reverse(names), dims, true), shape, j), AllGroups(SizesOf(names, shape), MaskOf(names, dims));
            && k < Size(Filter(Reverse(names), dims, true), shape) == |groups[i]|
            && RankRows(names, shape, dims, right, base)[i][j] == Shift(groups, base)[i][k]
  {
    var columns := Filter(Reverse(names), dims, true);
    var k, groups := Reread(right, columns, shape, j), AllGroups(SizesOf(names, shape), MaskOf(names, dims));
    FilterSize(names, shape, dims, true);
    RereadBack(right, columns, shape, j);
    assert Shift(groups, base)[i][k] == RankAt(SizesOf(names, shape), MaskOf(names, dims), i, k) + base;
    CellReread(names, shape, dims, right, i, j);
  }

  lemma {:induction false} RowRegroups(names: seq<string>, shape: Shape, dims: set<string>, right: seq<string>, base: nat, i: nat)
    requires NoRepeat(Reverse(names)) && SameAxes(right, Filter(Reverse(names), dims, true))
    requires i < Size(Filter(Reverse(names), dims, false), shape)
    ensures i < GroupCount(SizesOf(names, shape), MaskOf(names, dims))
    ensures var row := RankRows(names, shape, dims, right, base)[i];
            var group := Shift(AllGroups(SizesOf(names, shape), MaskOf(names, dims)), base)[i];
            |row| == |group| && RowReread(row, group, right, Filter(Reverse(names), dims, true), shape)
  {
    var columns := Filter(Reverse(names), dims, true);
    FilterSize(names, shape, dims, false);
    FilterSize(names, shape, dims, true);
    SizeSame(right, columns, shape);
    var row, group := RankRows(names, shape, dims, right, base)[i], Shift(AllGroups(SizesOf(names, shape), MaskOf(names, dims)), base)[i];
    forall j | 0 <= j < |row|
      ensures Reread(right, columns, shape, j) < |group| && row[j] == group[Reread(right, columns, shape, j)]
    {
      CellRegroups(names, shape, dims, right, base, i, j);
    }
  }

  /** For distinct names, rearranging with any order of the requested columns regroups the masked enumeration. */
  lemma {:induction false} RearrangeRegroups(names: seq<string>, shape: Shape, dims: set<string>, right: seq<string>, base: nat)
    requires NoRepeat(Reverse(names)) && SameAxes(right, Filter(Reverse(names), dims, true))
    ensures Regrouped(RankRows(names, shape, dims, right, base), Shift(AllGroups(SizesOf(names, shape), MaskOf(names, dims)), base),
                      right, Filter(Reverse(names), dims, true), shape)
  {
    FilterSize(names, shape, dims, false);
    var rows := RankRows(names, shape, dims, right, base);
    forall i | 0 <= i < |rows|
      ensures |rows[i]| == |Shift(AllGroups(SizesOf(names, shape), MaskOf(names, dims)), base)[i]|
      ensures RowReread(rows[i], Shift(AllGroups(SizesOf(names, shape), MaskOf(names, dims)), base)[i], right, Filter(Reverse(names), dims, true), shape)
    {
      RowRegroups(names, shape, dims, right, base, i);
    }
  }

  // ---- The documented example ----

  lemma ReverseThree(a: string, b: string, c: string)
    ensures Reverse([a, b, c]) == [c, b, a]
  {
    assert [a, b, c][1..] == [b, c] && [b, c][1..] == [c] && [c][1..] == [];
    assert Reverse([c]) == [c];
    assert Reverse([b, c]) == [c, b];
  }

  lemma FilterFirst(a: string, b: string, c: string, ds: set<string>)
    requires a !in ds && b in ds && c in ds
    ensures Filter([a, b, c], ds, false) == [a]
  {
    assert [a, b, c][..2] == [a, b] && [a, b][..1] == [a] && [a][..0] == [];
    assert Filter([a], ds, false) == [a];
    assert Filter([a, b], ds, false) == [a];
  }

  lemma UnravelTwo(a: string, b: string, shape: Shape, j: nat)
    requires a != b && shape(a) == 2 && shape(b) == 2
    ensures Unravel([a, b], shape, j, a) == j / 2 % 2 && Unravel([a, b], shape, j, b) == j % 2
  {
    assert [a, b][..1] == [a];
    assert Unravel([a], shape, j / 2, a) == j / 2 % 2;
  }

  lemma RavelThree(c: string, b: string, a: string, shape: Shape, idx: Index)
    requires shape(a) == 2 && shape(b) == 2 && shape(c) == 2
    ensures Ravel([c, b, a], shape, idx) == idx(a) + 2 * (idx(b) + 2 * idx(c))
  {
    assert [c, b, a][..2] == [c, b] && [c, b][..1] == [c] && [c][..0] == [];
    assert Ravel([c], shape, idx) == idx(c);
    assert Ravel([c, b], shape, idx) == idx(b) + 2 * Ravel([c], shape, idx);
  }

  lemma CellOfThree(a: string, b: string, c: string, shape: Shape, i: nat, j: nat)
    requires a != b && b != c && a != c && shape(a) == 2 && shape(b) == 2 && shape(c) == 2
    ensures CellIndex([c, b, a], [c], [a, b], shape, i, j) == j / 2 % 2 + 2 * (j % 2 + 2 * (i % 2))
  {
    var idx := CellTuple([c], [a, b], shape, i, j);
    RavelThree(c, b, a, shape, idx);
    UnravelTwo(a, b, shape, j);
    assert idx(a) == j / 2 % 2 && idx(b) == j % 2 && idx(c) == i % 2;
  }

  /** Three dimensions of size 2, the first two requested in that order: b varies fastest within a row, then a. */
  lemma DocumentedEnumeration(a: string, b: string, c: string, shape: Shape)
    requires a != b && b != c && a != c && shape(a) == 2 && shape(b) == 2 && shape(c) == 2
    ensures RankRows([a, b, c], shape, {a, b}, [a, b], 0) == [[0, 2, 1, 3], [4, 6, 5, 7]]
  {
    ReverseThree(a, b, c);
    FilterFirst(c, b, a, {a, b});
    var rows := RankRows([a, b, c], shape, {a, b}, [a, b], 0);
    SizesOfTwo(a, b, c, shape);
    assert |rows| == 2;
    RowOfFour(a, b, c, shape, rows[0], 0);
    RowOfFour(a, b, c, shape, rows[1], 1);
  }

  lemma RowOfFour(a: string, b: string, c: string, shape: Shape, row: seq<nat>, i: nat)
    requires a != b && b != c && a != c && shape(a) == 2 && shape(b) == 2 && shape(c) == 2 && i < 2
    requires |row| == 4 && forall j :: 0 <= j < 4 ==> row[j] == CellIndex([c, b, a], [c], [a, b], shape, i, j)
    ensures row == [4 * i, 4 * i + 2, 4 * i + 1, 4 * i + 3]
  {
    CellOfThree(a, b, c, shape, i, 0);
    CellOfThree(a, b, c, shape, i, 1);
    CellOfThree(a, b, c, shape, i, 2);
    CellOfThree(a, b, c, shape, i, 3);
  }

  lemma SizesOfTwo(a: string, b: string, c: string, shape: Shape)
    requires shape(a) == 2 && shape(b) == 2 && shape(c) == 2
    ensures Size([c], shape) == 2 && Size([a, b], shape) == 4 && Size([c, b, a], shape) == 8
  {
    SizeAppend([], c, shape);
    SizeAppend([], a, shape);
    SizeAppend([a], b, shape);
    SizeAppend([c], b, shape);
    SizeAppend([c, b], a, shape);
    assert [] + [c] == [c] && [] + [a] == [a] && [a] + [b] == [a, b];
    assert [c] + [b] == [c, b] && [c, b] + [a] == [c, b, a];
  }
}
