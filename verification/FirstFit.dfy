/** Greedy packing is first fit decreasing, and so uses at most half as many knapsacks again as any packing. */
module FirstFit {
  import opened Knapsack
  import opened Sequences

  // ---- First fit decreasing ----

  /** Puts an item into the first bin with room for it, or into a new bin. */
  function PutFirst<T>(bins: seq<seq<Item<T>>>, x: Item<T>, capacity: int): seq<seq<Item<T>>> {
    if bins == [] then [[x]]
    else if Total(bins[0]) + x.size <= capacity then [bins[0] + [x]] + bins[1..]
    else [bins[0]] + PutFirst(bins[1..], x, capacity)
  }

  /** First fit: one item after another, from the end of the list, so the largest of a sorted list first. */
  function FirstFitFrom<T>(bins: seq<seq<Item<T>>>, items: seq<Item<T>>, capacity: int): seq<seq<Item<T>>>
    decreases |items|
  {
    if items == [] then bins
    else
      var last := |items| - 1;
      FirstFitFrom(PutFirst(bins, items[last], capacity), items[..last], capacity)
  }

  lemma FirstFitAppend<T>(bins: seq<seq<Item<T>>>, items: seq<Item<T>>, x: Item<T>, capacity: int)
    ensures FirstFitFrom(bins, items + [x], capacity) == FirstFitFrom(PutFirst(bins, x, capacity), items, capacity)
  {
    assert (items + [x])[..|items|] == items;
  }

  lemma FitIs<T>(items: seq<Item<T>>, capacity: int, i: int)
    requires SortedItems(items) && -1 <= i < |items|
    requires (0 <= i ==> items[i].size <= capacity) && (i + 1 < |items| ==> capacity < items[i + 1].size)
    ensures Fit(items, capacity) == i
  {
    FitFinds(items, capacity);
  }

  lemma WithoutLast<T>(s: seq<T>)
    requires s != []
    ensures Without(s, |s| - 1) == s[..|s| - 1]
  {
    WithoutSlices(s, |s| - 1);
  }

  /** A largest item that fits is taken first. */
  lemma LastTaken<T>(items: seq<Item<T>>, x: Item<T>, capacity: int)
    requires SortedItems(items + [x]) && x.size <= capacity
    ensures Taken(items + [x], capacity) == [x] + Taken(items, capacity - x.size)
    ensures Left(items + [x], capacity) == Left(items, capacity - x.size)
  {
    var all, n := items + [x], |items|;
    FitIs(all, capacity, n);
    WithoutLast(all);
    assert all[..n] == items;
    FillUnfold(all, capacity, n);
  }

  lemma WithoutBefore<T>(s: seq<T>, x: T, i: nat)
    requires i < |s|
    ensures Without(s + [x], i) == Without(s, i) + [x]
  {
    WithoutSlices(s + [x], i);
    WithoutSlices(s, i);
  }

  lemma SortedParts<T>(items: seq<Item<T>>, x: Item<T>)
    requires SortedItems(items + [x]) && NonNegative(items + [x])
    ensures SortedItems(items) && NonNegative(items) && forall i :: 0 <= i < |items| ==> items[i].size <= x.size
  {
    var all := items + [x];
    assert forall i :: 0 <= i < |items| ==> items[i] == all[i];
    assert all[|items|] == x;
  }

  lemma WithoutParts<T>(items: seq<Item<T>>, x: Item<T>, i: nat)
    requires SortedItems(items + [x]) && NonNegative(items + [x]) && i < |items|
    ensures SortedItems(Without(items, i) + [x]) && NonNegative(Without(items, i) + [x])
    ensures Without(items + [x], i) == Without(items, i) + [x]
  {
    WithoutBefore(items, x, i);
    WithoutSorted(items + [x], i);
    WithoutSlices(items + [x], i);
  }

  lemma SameFit<T>(items: seq<Item<T>>, x: Item<T>, capacity: int)
    requires SortedItems(items + [x]) && NonNegative(items + [x]) && capacity < x.size
    ensures SortedItems(items) && NonNegative(items) && Fit(items + [x], capacity) == Fit(items, capacity)
  {
    SortedParts(items, x);
    FitFinds(items, capacity);
    var i := Fit(items, capacity);
    assert (items + [x])[i + 1] == if i + 1 < |items| then items[i + 1] else x;
    FitIs(items + [x], capacity, i);
  }

  /** A largest item that does not fit is left behind, however the knapsack is filled: what fits never grows. */
  lemma {:induction false} LastLeft<T>(items: seq<Item<T>>, x: Item<T>, capacity: int)
    requires SortedItems(items + [x]) && NonNegative(items + [x]) && capacity < x.size
    ensures Taken(items + [x], capacity) == Taken(items, capacity)
    ensures Left(items + [x], capacity) == Left(items, capacity) + [x]
    decreases |items|
  {
    SameFit(items, x, capacity);
    var i := Fit(items, capacity);
    if i != -1 {
      var rest, c := Without(items, i), capacity - items[i].size;
      WithoutParts(items, x, i);
      LastLeft(rest, x, c);
      FillUnfold(items, capacity, i);
      UnfoldLonger(items, x, capacity, i);
    }
  }

  lemma UnfoldLonger<T>(items: seq<Item<T>>, x: Item<T>, capacity: int, i: nat)
    requires i < |items| && i == Fit(items + [x], capacity)
    ensures Taken(items + [x], capacity) == [items[i]] + Taken(Without(items, i) + [x], capacity - items[i].size)
    ensures Left(items + [x], capacity) == Left(Without(items, i) + [x], capacity - items[i].size)
  {
    WithoutBefore(items, x, i);
    assert (items + [x])[i] == items[i];
    FillUnfold(items + [x], capacity, i);
  }

  lemma PutFirstHere<T>(b: seq<Item<T>>, bins: seq<seq<Item<T>>>, x: Item<T>, capacity: int)
    ensures PutFirst([b] + bins, x, capacity) ==
            if Total(b) + x.size <= capacity then [b + [x]] + bins else [b] + PutFirst(bins, x, capacity)
  {
    assert ([b] + bins)[1..] == bins;
  }

  /** First fit puts `taken` into its first bin and treats the items left as if they were all there is. */
  ghost predicate FillsFirst<T>(b: seq<Item<T>>, bins: seq<seq<Item<T>>>, items: seq<Item<T>>, capacity: int,
                                taken: seq<Item<T>>, left: seq<Item<T>>) {
    FirstFitFrom([b] + bins, items, capacity) == [b + taken] + FirstFitFrom(bins, left, capacity)
  }

  lemma FirstBinTakes<T>(b: seq<Item<T>>, bins: seq<seq<Item<T>>>, before: seq<Item<T>>, x: Item<T>, capacity: int,
                         taken: seq<Item<T>>, left: seq<Item<T>>)
    requires Total(b) + x.size <= capacity && FillsFirst(b + [x], bins, before, capacity, taken, left)
    ensures FillsFirst(b, bins, before + [x], capacity, [x] + taken, left)
  {
    FirstFitAppend([b] + bins, before, x, capacity);
    PutFirstHere(b, bins, x, capacity);
    assert b + [x] + taken == b + ([x] + taken);
  }

  lemma FirstBinSkips<T>(b: seq<Item<T>>, bins: seq<seq<Item<T>>>, before: seq<Item<T>>, x: Item<T>, capacity: int,
                         taken: seq<Item<T>>, left: seq<Item<T>>)
    requires capacity < Total(b) + x.size && FillsFirst(b, PutFirst(bins, x, capacity), before, capacity, taken, left)
    ensures FillsFirst(b, bins, before + [x], capacity, taken, left + [x])
  {
    FirstFitAppend([b] + bins, before, x, capacity);
    PutFirstHere(b, bins, x, capacity);
    FirstFitAppend(bins, left, x, capacity);
  }

  /** First fit fills its first bin as greedy filling fills a knapsack. */
  lemma {:induction false} FirstBin<T>(b: seq<Item<T>>, bins: seq<seq<Item<T>>>, items: seq<Item<T>>, capacity: int, room: int)
    requires SortedItems(items) && NonNegative(items) && room == capacity - Total(b)
    ensures FillsFirst(b, bins, items, capacity, Taken(items, room), Left(items, room))
    decreases |items|
  {
    if items == [] {
      assert b + Taken(items, room) == b;
    } else {
      var n := |items| - 1;
      var x, before := items[n], items[..n];
      assert items == before + [x];
      SortedParts(before, x);
      if x.size <= room {
        TotalConcat(b, [x]);
        FirstBin(b + [x], bins, before, capacity, room - x.size);
        FirstBinTakes(b, bins, before, x, capacity, Taken(before, room - x.size), Left(before, room - x.size));
        LastTaken(before, x, room);
      } else {
        FirstBin(b, PutFirst(bins, x, capacity), before, capacity, room);
        FirstBinSkips(b, bins, before, x, capacity, Taken(before, room), Left(before, room));
        LastLeft(before, x, room);
      }
    }
  }

  /** The first item of a list opens the first bin. */
  lemma FirstFitOpens<T>(before: seq<Item<T>>, x: Item<T>, capacity: int)
    requires SortedItems(before + [x]) && NonNegative(before + [x]) && x.size <= capacity
    ensures FirstFitFrom([], before + [x], capacity)
         == [Taken(before + [x], capacity)] + FirstFitFrom([], Left(before + [x], capacity), capacity)
  {
    SortedParts(before, x);
    FirstFitAppend([], before, x, capacity);
    assert [[x]] + [] == [[x]];
    FirstBin([x], [], before, capacity, capacity - x.size);
    LastTaken(before, x, capacity);
  }

  lemma LeftNonNegative<T(!new)>(items: seq<Item<T>>, capacity: int)
    requires NonNegative(items)
    ensures NonNegative(Left(items, capacity))
  {
    FillConserves(items, capacity);
    var left := Left(items, capacity);
    forall i | 0 <= i < |left|
      ensures 0 <= left[i].size
    {
      assert left[i] in multiset(items);
    }
  }

  /** Filling one knapsack after another with the largest item that fits gives the knapsacks of first fit
      decreasing. */
  lemma {:induction false} PackIsFirstFit<T(!new)>(items: seq<Item<T>>, capacity: int)
    requires SortedItems(items) && Packable(items, capacity) && NonNegative(items)
    ensures Pack(items, capacity) == FirstFitFrom([], items, capacity)
    decreases |items|
  {
    if items != [] {
      var n := |items| - 1;
      FirstFits(items, capacity);
      LeftSorted(items, capacity);
      LeftNonNegative(items, capacity);
      PackIsFirstFit(Left(items, capacity), capacity);
      assert items == items[..n] + [items[n]];
      FirstFitOpens(items[..n], items[n], capacity);
    }
  }

  // ---- The 3/2 bound ----

  /** The first item of a knapsack is at least as large as everything in it and in later ones. */
  lemma {:induction false} FirstLargest<T(!new)>(items: seq<Item<T>>, capacity: int, k: nat, l: nat, x: Item<T>)
    requires SortedItems(items) && Packable(items, capacity) && k <= l < |Pack(items, capacity)| && x in Pack(items, capacity)[l]
    ensures Pack(items, capacity)[k] != [] && x.size <= Pack(items, capacity)[k][0].size
    decreases |items|
  {
    FirstFits(items, capacity);
    LeftSorted(items, capacity);
    if k == 0 {
      PackMember(items, capacity, l, x);
      FitIs(items, capacity, |items| - 1);
    } else {
      FirstLargest(Left(items, capacity), capacity, k - 1, l - 1, x);
    }
  }

  /** Only the last knapsack can hold a single item of at most half the capacity. */
  lemma TwoItems<T(!new)>(items: seq<Item<T>>, capacity: int, k: nat)
    requires SortedItems(items) && Packable(items, capacity) && k + 1 < |Pack(items, capacity)|
    ensures Pack(items, capacity)[k] != [] && (2 * Pack(items, capacity)[k][0].size <= capacity ==> 2 <= |Pack(items, capacity)[k]|)
  {
    var pack := Pack(items, capacity)[k];
    PackFits(items, capacity, k, 0);
    PackFits(items, capacity, k + 1, 0);
    var x := Pack(items, capacity)[k + 1][0];
    LaterItemsDoNotFit(items, capacity, k, k + 1, x);
    FirstLargest(items, capacity, k, k + 1, x);
    if |pack| == 1 {
      assert Total(pack) == pack[0].size + Total(pack[1..]);
    }
  }

  /** How many items are larger than half the capacity. */
  function Big<T>(items: seq<Item<T>>, capacity: int): nat {
    if items == [] then 0 else (if capacity < 2 * items[0].size then 1 else 0) + Big(items[1..], capacity)
  }

  lemma {:induction false} BigConcat<T>(a: seq<Item<T>>, b: seq<Item<T>>, capacity: int)
    ensures Big(a + b, capacity) == Big(a, capacity) + Big(b, capacity)
  {
    if a == [] {
      assert a + b == b;
    } else {
      assert (a + b)[1..] == a[1..] + b;
      BigConcat(a[1..], b, capacity);
    }
  }

  lemma {:induction false} BigWithout<T>(items: seq<Item<T>>, i: nat, capacity: int)
    requires i < |items|
    ensures Big(items, capacity) == Big(Without(items, i), capacity) + if capacity < 2 * items[i].size then 1 else 0
  {
    if i > 0 {
      BigWithout(items[1..], i - 1, capacity);
      var rest := Without(items[1..], i - 1);
      assert ([items[0]] + rest)[1..] == rest;
    }
  }

  lemma {:induction false} BigPermuted<T>(a: seq<Item<T>>, b: seq<Item<T>>, capacity: int)
    requires multiset(a) == multiset(b)
    ensures Big(a, capacity) == Big(b, capacity)
  {
    assert |multiset(a)| == |a| && |multiset(b)| == |b|;
    if a != [] {
      assert a[0] in multiset(b);
      var i :| 0 <= i < |b| && b[i] == a[0];
      WithoutMultiset(a, 0);
      WithoutMultiset(b, i);
      assert multiset(a[1..]) == multiset(a) - multiset{a[0]};
      assert multiset(Without(b, i)) == multiset(b) - multiset{a[0]};
      BigPermuted(a[1..], Without(b, i), capacity);
      BigWithout(b, i, capacity);
    }
  }

  /** Two items of more than half the capacity never share a bin. */
  lemma {:induction false} BigLoad<T>(bin: seq<Item<T>>, capacity: int)
    requires NonNegative(bin) && 0 <= capacity
    ensures 0 <= Total(bin) && Big(bin, capacity) * (capacity + 1) <= 2 * Total(bin)
  {
    if bin != [] {
      BigLoad(bin[1..], capacity);
      MulStep(Big(bin[1..], capacity), capacity + 1);
    }
  }

  lemma BigAtMostOne<T>(bin: seq<Item<T>>, capacity: int)
    requires NonNegative(bin) && 0 <= capacity && Total(bin) <= capacity
    ensures Big(bin, capacity) <= 1
  {
    BigLoad(bin, capacity);
    MulOrder(2, Big(bin, capacity), capacity + 1);
  }

  lemma MulOrder(a: nat, b: nat, x: int)
    requires 0 <= x
    ensures a <= b ==> a * x <= b * x
  {
    if a <= b {
      assert b * x == a * x + (b - a) * x;
    }
  }

  lemma {:induction false} BigBins<T>(bins: seq<seq<Item<T>>>, capacity: int)
    requires 0 <= capacity && forall b :: 0 <= b < |bins| ==> NonNegative(bins[b]) && Total(bins[b]) <= capacity
    ensures Big(Flatten(bins), capacity) <= |bins|
  {
    if bins != [] {
      BigBins(bins[1..], capacity);
      FlattenFirst(bins);
      BigConcat(bins[0], Flatten(bins[1..]), capacity);
      BigAtMostOne(bins[0], capacity);
    }
  }

  lemma {:induction false} BigFirsts<T>(packs: seq<seq<Item<T>>>, capacity: int, j: nat)
    requires j <= |packs| && forall k :: 0 <= k < j ==> packs[k] != [] && capacity < 2 * packs[k][0].size
    ensures j <= Big(Flatten(packs), capacity)
  {
    if j > 0 {
      BigFirsts(packs[1..], capacity, j - 1);
      FlattenFirst(packs);
      BigConcat(packs[0], Flatten(packs[1..]), capacity);
    }
  }

  /** Items that do not fit on top of as many packs make each of them overfull. */
  lemma {:induction false} MatchLoads<T>(packs: seq<seq<Item<T>>>, items: seq<Item<T>>, capacity: int)
    requires |packs| <= |items| && NonNegative(items)
    requires forall i, y: Item<T> :: 0 <= i < |packs| && y in items ==> capacity < Total(packs[i]) + y.size
    ensures |packs| * (capacity + 1) <= Load(packs) + Total(items)
  {
    if packs == [] {
      TotalNonNegative(items);
    } else {
      assert items[0] in items;
      MatchLoads(packs[1..], items[1..], capacity);
      MulStep(|packs| - 1, capacity + 1);
    }
  }

  lemma {:induction false} ManyItems<T>(packs: seq<seq<Item<T>>>)
    requires packs != [] && (forall k :: 0 <= k < |packs| - 1 ==> 2 <= |packs[k]|) && packs[|packs| - 1] != []
    ensures 2 * |packs| - 1 <= |Flatten(packs)|
  {
    FlattenFirst(packs);
    if |packs| > 1 {
      ManyItems(packs[1..]);
    }
  }

  /** A packing of the items within the capacity. */
  ghost predicate Packs<T>(bins: seq<seq<Item<T>>>, items: seq<Item<T>>, capacity: int) {
    multiset(Flatten(bins)) == multiset(items) && forall b :: 0 <= b < |bins| ==> Total(bins[b]) <= capacity
  }

  lemma BinsNonNegative<T>(bins: seq<seq<Item<T>>>, items: seq<Item<T>>, capacity: int, b: nat)
    requires Packs(bins, items, capacity) && NonNegative(items) && b < |bins|
    ensures NonNegative(bins[b])
  {
    forall i | 0 <= i < |bins[b]|
      ensures 0 <= bins[b][i].size
    {
      FlattenMember(bins, b, i);
      assert bins[b][i] in multiset(items);
    }
  }

  /** Where the first item of knapsack `j` is larger than half the capacity, so are those before it. */
  lemma {:induction false} ManyBig<T(!new)>(items: seq<Item<T>>, capacity: int, bins: seq<seq<Item<T>>>, j: nat)
    requires SortedItems(items) && Packable(items, capacity) && NonNegative(items) && Packs(bins, items, capacity)
    requires 0 < j <= |Pack(items, capacity)|
    requires Pack(items, capacity)[j - 1] != [] && capacity < 2 * Pack(items, capacity)[j - 1][0].size
    ensures j <= |bins|
  {
    var packs: seq<seq<Item<T>>> := Pack(items, capacity);
    forall k | 0 <= k < j
      ensures packs[k] != [] && capacity < 2 * packs[k][0].size
    {
      FirstLargest(items, capacity, k, j - 1, packs[j - 1][0]);
    }
    BigFirsts(packs, capacity, j);
    PackConserves(items, capacity);
    BigPermuted(Flatten(packs), Flatten(bins), capacity);
    forall b | 0 <= b < |bins|
      ensures NonNegative(bins[b])
    {
      BinsNonNegative(bins, items, capacity, b);
    }
    PackMember(items, capacity, j - 1, packs[j - 1][0]);
    BigBins(bins, capacity);
  }

  lemma PackTail<T(!new)>(items: seq<Item<T>>, capacity: int, k: nat, y: Item<T>)
    requires SortedItems(items) && Packable(items, capacity) && NonNegative(items)
    requires k <= |Pack(items, capacity)| && y in Flatten(Pack(items, capacity)[k..])
    ensures 0 <= y.size && forall i :: 0 <= i < k ==> capacity < Total(Pack(items, capacity)[i]) + y.size
  {
    var packs: seq<seq<Item<T>>> := Pack(items, capacity);
    var l := FlattenHolds(packs[k..], y);
    PackMember(items, capacity, k + l, y);
    forall i | 0 <= i < k
      ensures capacity < Total(packs[i]) + y.size
    {
      LaterItemsDoNotFit(items, capacity, i, k + l, y);
    }
  }

  lemma {:induction false} FlattenHolds<T>(lists: seq<seq<T>>, y: T) returns (l: nat)
    requires y in Flatten(lists)
    ensures l < |lists| && y in lists[l]
  {
    l := |lists| - 1;
    if y !in lists[l] {
      l := FlattenHolds(lists[..l], y);
    }
  }

  lemma {:induction false} LoadSplit<T>(packs: seq<seq<Item<T>>>, k: nat)
    requires k <= |packs|
    ensures Load(packs) == Load(packs[..k]) + Load(packs[k..])
  {
    if k > 0 {
      LoadSplit(packs[1..], k - 1);
      assert packs[..k][1..] == packs[1..][..k - 1] && packs[k..] == packs[1..][k - 1..];
    }
  }

  /** Where the first item of knapsack `j` is at most half the capacity, the items from there on overfill the
      knapsacks before. */
  lemma {:induction false} SmallTail<T(!new)>(items: seq<Item<T>>, capacity: int, j: nat)
    requires SortedItems(items) && Packable(items, capacity) && NonNegative(items)
    requires 0 < j <= |Pack(items, capacity)| && 3 * j <= 2 * |Pack(items, capacity)| + 2
    requires Pack(items, capacity)[j - 1] != [] && 2 * Pack(items, capacity)[j - 1][0].size <= capacity
    ensures (j - 1) * (capacity + 1) <= Load(Pack(items, capacity))
  {
    var packs: seq<seq<Item<T>>> := Pack(items, capacity);
    var front, rest := packs[..j - 1], packs[j - 1..];
    EnoughItems(items, capacity, j);
    var tail := Flatten(rest);
    forall y: Item<T> | y in tail
      ensures 0 <= y.size && forall i :: 0 <= i < |front| ==> capacity < Total(front[i]) + y.size
    {
      PackTail(items, capacity, j - 1, y);
    }
    assert forall n :: 0 <= n < |tail| ==> tail[n] in tail;
    MatchLoads(front, tail, capacity);
    LoadIsTotal(rest);
    LoadSplit(packs, j - 1);
  }

  lemma EnoughItems<T(!new)>(items: seq<Item<T>>, capacity: int, j: nat)
    requires SortedItems(items) && Packable(items, capacity)
    requires 0 < j <= |Pack(items, capacity)| && 3 * j <= 2 * |Pack(items, capacity)| + 2
    requires Pack(items, capacity)[j - 1] != [] && 2 * Pack(items, capacity)[j - 1][0].size <= capacity
    ensures j - 1 <= |Flatten(Pack(items, capacity)[j - 1..])|
  {
    var packs: seq<seq<Item<T>>> := Pack(items, capacity);
    var rest := packs[j - 1..];
    forall k | 0 <= k < |rest| - 1
      ensures 2 <= |rest[k]|
    {
      TwoItems(items, capacity, k + j - 1);
      FirstLargest(items, capacity, j - 1, k + j - 1, packs[k + j - 1][0]);
    }
    PackFits(items, capacity, |packs| - 1, 0);
    ManyItems(rest);
  }

  lemma BinsNonempty<T>(bins: seq<seq<Item<T>>>, items: seq<Item<T>>, capacity: int)
    requires Packs(bins, items, capacity) && items != []
    ensures 0 < |bins|
  {
    assert |multiset(items)| > 0;
  }

  lemma SmallBound(j: nat, capacity: int, bins: nat)
    requires 0 <= capacity && 0 < j && 0 < bins && (j - 1) * (capacity + 1) <= bins * capacity
    ensures j <= bins
  {
    MulOrder(bins, j - 1, capacity);
    assert (j - 1) * (capacity + 1) == (j - 1) * capacity + (j - 1);
  }

  /** Greedy packing never uses more than 3/2 times the knapsacks of any packing of the same items. */
  lemma {:induction false} ThreeHalves<T(!new)>(items: seq<Item<T>>, capacity: int, bins: seq<seq<Item<T>>>)
    requires SortedItems(items) && Packable(items, capacity) && NonNegative(items) && Packs(bins, items, capacity)
    ensures 2 * |Pack(items, capacity)| <= 3 * |bins|
  {
    var packs: seq<seq<Item<T>>> := Pack(items, capacity);
    if items != [] {
      FirstFits(items, capacity);
      var j := (2 * |packs| + 2) / 3;
      PackFits(items, capacity, j - 1, 0);
      if capacity < 2 * packs[j - 1][0].size {
        ManyBig(items, capacity, bins, j);
      } else {
        SmallTail(items, capacity, j);
        LoadAtMost(bins, capacity);
        LoadIsTotal(packs);
        LoadIsTotal(bins);
        PackConserves(items, capacity);
        TotalPermuted(Flatten(packs), Flatten(bins));
        BinsNonempty(bins, items, capacity);
        assert 0 <= items[0].size <= capacity;
        SmallBound(j, capacity, |bins|);
      }
    }
  }
}
