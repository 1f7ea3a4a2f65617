/** Greedy sequence packing: sort by length, then repeatedly take the longest sample that still fits. */
module Knapsack {
  import opened Sorting
  import opened Sequences

  datatype Item<T> = Item(size: int, sample: T)

  function Total<T>(items: seq<Item<T>>): int {
    if items == [] then 0 else items[0].size + Total(items[1..])
  }

  lemma {:induction false} TotalConcat<T>(a: seq<Item<T>>, b: seq<Item<T>>)
    ensures Total(a + b) == Total(a) + Total(b)
  {
    if a == [] {
      assert a + b == b;
    } else {
      assert (a + b)[1..] == a[1..] + b;
      TotalConcat(a[1..], b);
    }
  }

  /** `s.pop(i)`: the list without its `i`-th element. */
  function Without<T>(s: seq<T>, i: nat): (r: seq<T>)
    requires i < |s|
    ensures |r| == |s| - 1
  {
    if i == 0 then s[1..] else [s[0]] + Without(s[1..], i - 1)
  }

  lemma {:induction false} WithoutSlices<T>(s: seq<T>, i: nat)
    requires i < |s|
    ensures Without(s, i) == s[..i] + s[i + 1..]
  {
    if i > 0 {
      WithoutSlices(s[1..], i - 1);
    }
  }

  lemma {:induction false} WithoutMultiset<T>(s: seq<T>, i: nat)
    requires i < |s|
    ensures multiset(s) == multiset(Without(s, i)) + multiset{s[i]}
  {
    assert s == [s[0]] + s[1..];
    if i > 0 {
      WithoutMultiset(s[1..], i - 1);
    }
  }

  lemma {:induction false} TotalWithout<T>(items: seq<Item<T>>, i: nat)
    requires i < |items|
    ensures Total(items) == items[i].size + Total(Without(items, i))
  {
    if i > 0 {
      TotalWithout(items[1..], i - 1);
      var rest := Without(items[1..], i - 1);
      assert ([items[0]] + rest)[1..] == rest;
    }
  }

  /** Total size depends only on the multiset of items. */
  lemma {:induction false} TotalPermuted<T>(a: seq<Item<T>>, b: seq<Item<T>>)
    requires multiset(a) == multiset(b)
    ensures Total(a) == Total(b)
  {
    assert |multiset(a)| == |a| && |multiset(b)| == |b|;
    if a != [] {
      assert a[0] in multiset(b);
      var i :| 0 <= i < |b| && b[i] == a[0];
      WithoutMultiset(a, 0);
      WithoutMultiset(b, i);
      assert Without(a, 0) == a[1..];
      assert multiset(a[1..]) == multiset(a) - multiset{a[0]};
      assert multiset(Without(b, i)) == multiset(b) - multiset{a[0]};
      TotalPermuted(a[1..], Without(b, i));
      TotalWithout(b, i);
    }
  }

  /** `bisect.bisect`: how many leading entries are at most `x`. */
  function Bisect(numbers: seq<int>, x: int): (i: nat)
    ensures i <= |numbers|
  {
    if numbers == [] || x < numbers[0] then 0 else 1 + Bisect(numbers[1..], x)
  }

  /** `search_for_fit`: index of the largest number that fits, or -1. */
  function SearchForFit(numbers: seq<int>, capacity: int): (index: int)
    ensures -1 <= index < |numbers|
  {
    var index := Bisect(numbers, capacity);
    if index == 0 then -1 else index - 1
  }

  predicate Ascending(numbers: seq<int>) {
    forall i, j :: 0 <= i < j < |numbers| ==> numbers[i] <= numbers[j]
  }

  /** On sorted numbers the index found is the last one that fits; -1 means nothing fits. */
  lemma {:induction false} SearchForFitFinds(numbers: seq<int>, capacity: int)
    requires Ascending(numbers)
    ensures var index := SearchForFit(numbers, capacity);
            && (forall i :: 0 <= i <= index ==> numbers[i] <= capacity)
            && (forall i :: index < i < |numbers| ==> capacity < numbers[i])
  {
    if numbers != [] && numbers[0] <= capacity {
      SearchForFitFinds(numbers[1..], capacity);
    }
  }

  function Sizes<T>(items: seq<Item<T>>): (r: seq<int>)
    ensures |r| == |items|
  {
    seq(|items|, i requires 0 <= i < |items| => items[i].size)
  }

  function Samples<T>(items: seq<Item<T>>): (r: seq<T>)
    ensures |r| == |items|
  {
    seq(|items|, i requires 0 <= i < |items| => items[i].sample)
  }

  function Fit<T>(items: seq<Item<T>>, capacity: int): (index: int)
    ensures -1 <= index < |items|
  {
    SearchForFit(Sizes(items), capacity)
  }

  /** The items one knapsack takes, in the order taken. */
  function Taken<T>(items: seq<Item<T>>, capacity: int): seq<Item<T>>
    decreases |items|
  {
    var i := Fit(items, capacity);
    if i == -1 then [] else [items[i]] + Taken(Without(items, i), capacity - items[i].size)
  }

  /** The items it leaves behind. */
  function Left<T>(items: seq<Item<T>>, capacity: int): (r: seq<Item<T>>)
    ensures |r| <= |items|
    decreases |items|
  {
    var i := Fit(items, capacity);
    if i == -1 then items else Left(Without(items, i), capacity - items[i].size)
  }

  predicate Packable<T>(items: seq<Item<T>>, capacity: int) {
    forall i :: 0 <= i < |items| ==> items[i].size <= capacity
  }

  predicate SortedItems<T>(items: seq<Item<T>>) {
    forall i, j :: 0 <= i < j < |items| ==> items[i].size <= items[j].size
  }

  lemma {:induction false} FitFinds<T>(items: seq<Item<T>>, capacity: int)
    requires SortedItems(items)
    ensures var index := Fit(items, capacity);
            && (0 <= index ==> items[index].size <= capacity)
            && (forall i :: index < i < |items| ==> capacity < items[i].size)
  {
    SearchForFitFinds(Sizes(items), capacity);
    assert forall i :: 0 <= i < |items| ==> Sizes(items)[i] == items[i].size;
  }

  lemma WithoutSorted<T>(items: seq<Item<T>>, i: nat)
    requires SortedItems(items) && i < |items|
    ensures SortedItems(Without(items, i))
  {
    WithoutSlices(items, i);
  }

  lemma CountCons<T>(x: T, s: seq<T>, y: T)
    ensures Count([x] + s, y) == Count(s, y) + if x == y then 1 else 0
  {
    assert ([x] + s)[1..] == s;
  }

  lemma CountWithout<T>(s: seq<T>, i: nat, y: T)
    requires i < |s|
    ensures Count(s, y) == Count(Without(s, i), y) + if s[i] == y then 1 else 0
  {
    WithoutMultiset(s, i);
    CountMultiset(s, y);
    CountMultiset(Without(s, i), y);
  }

  lemma {:induction false} FillCounts<T>(items: seq<Item<T>>, capacity: int, y: Item<T>)
    ensures Count(Taken(items, capacity), y) + Count(Left(items, capacity), y) == Count(items, y)
    decreases |items|
  {
    var i := Fit(items, capacity);
    if i != -1 {
      var rest, c := Without(items, i), capacity - items[i].size;
      FillCounts(rest, c, y);
      FillUnfold(items, capacity, i);
      CountCons(items[i], Taken(rest, c), y);
      CountWithout(items, i, y);
    }
  }

  lemma SumMultiset<T(!new)>(a: seq<T>, b: seq<T>, c: seq<T>)
    requires forall y: T :: Count(a, y) + Count(b, y) == Count(c, y)
    ensures multiset(a) + multiset(b) == multiset(c)
  {
    forall y: T
      ensures multiset(a)[y] + multiset(b)[y] == multiset(c)[y]
    {
      CountMultiset(a, y);
      CountMultiset(b, y);
      CountMultiset(c, y);
      assert Count(a, y) + Count(b, y) == Count(c, y);
    }
  }

  /** Filling a knapsack splits the items. */
  lemma {:induction false} FillConserves<T(!new)>(items: seq<Item<T>>, capacity: int)
    ensures multiset(Taken(items, capacity)) + multiset(Left(items, capacity)) == multiset(items)
  {
    forall y: Item<T>
      ensures Count(Taken(items, capacity), y) + Count(Left(items, capacity), y) == Count(items, y)
    {
      FillCounts(items, capacity, y);
    }
    SumMultiset(Taken(items, capacity), Left(items, capacity), items);
  }

  lemma {:induction false} FillUnfold<T>(items: seq<Item<T>>, capacity: int, i: nat)
    requires i == Fit(items, capacity)
    ensures Taken(items, capacity) == [items[i]] + Taken(Without(items, i), capacity - items[i].size)
    ensures Left(items, capacity) == Left(Without(items, i), capacity - items[i].size)
  {
  }

  lemma {:induction false} LeftSorted<T>(items: seq<Item<T>>, capacity: int)
    requires SortedItems(items)
    ensures SortedItems(Left(items, capacity))
    decreases |items|
  {
    var i := Fit(items, capacity);
    if i != -1 {
      WithoutSorted(items, i);
      LeftSorted(Without(items, i), capacity - items[i].size);
    }
  }

  /** Every non-empty prefix of a knapsack, and so the knapsack, stays within the capacity. */
  lemma {:induction false} PrefixFits<T>(items: seq<Item<T>>, capacity: int, n: nat)
    requires SortedItems(items) && 0 < n <= |Taken(items, capacity)|
    ensures Total(Taken(items, capacity)[..n]) <= capacity
    decreases |items|
  {
    var i := Fit(items, capacity);
    FitFinds(items, capacity);
    var rest := Taken(Without(items, i), capacity - items[i].size);
    var prefix := ([items[i]] + rest)[..n];
    assert prefix[1..] == rest[..n - 1];
    if n > 1 {
      WithoutSorted(items, i);
      PrefixFits(Without(items, i), capacity - items[i].size, n - 1);
    }
  }

  /** Nothing left behind fits in the space that remains. */
  lemma {:induction false} NothingLeftFits<T>(items: seq<Item<T>>, capacity: int, j: nat)
    requires SortedItems(items) && j < |Left(items, capacity)|
    ensures capacity < Total(Taken(items, capacity)) + Left(items, capacity)[j].size
    decreases |items|
  {
    var i := Fit(items, capacity);
    FitFinds(items, capacity);
    if i != -1 {
      WithoutSorted(items, i);
      NothingLeftFits(Without(items, i), capacity - items[i].size, j);
    }
  }

  lemma {:induction false} FirstFits<T(!new)>(items: seq<Item<T>>, capacity: int)
    requires SortedItems(items) && Packable(items, capacity) && items != []
    ensures Taken(items, capacity) != [] && |Left(items, capacity)| < |items| && Packable(Left(items, capacity), capacity)
  {
    FitFinds(items, capacity);
    FillConserves(items, capacity);
    assert |multiset(Taken(items, capacity)) + multiset(Left(items, capacity))| == |multiset(items)|;
    forall j | 0 <= j < |Left(items, capacity)|
      ensures Left(items, capacity)[j].size <= capacity
    {
      assert Left(items, capacity)[j] in multiset(items);
    }
  }

  /** The knapsacks, in the order they are filled. */
  function Pack<T(!new)>(items: seq<Item<T>>, capacity: int): seq<seq<Item<T>>>
    requires SortedItems(items) && Packable(items, capacity)
    decreases |items|
  {
    if items == [] then []
    else
      FirstFits(items, capacity);
      LeftSorted(items, capacity);
      [Taken(items, capacity)] + Pack(Left(items, capacity), capacity)
  }

  /** Packing keeps every item, with multiplicity. */
  lemma {:induction false} PackConserves<T(!new)>(items: seq<Item<T>>, capacity: int)
    requires SortedItems(items) && Packable(items, capacity)
    ensures multiset(Flatten(Pack(items, capacity))) == multiset(items)
    decreases |items|
  {
    if items != [] {
      FirstFits(items, capacity);
      LeftSorted(items, capacity);
      FillConserves(items, capacity);
      PackConserves(Left(items, capacity), capacity);
      FlattenFirst(Pack(items, capacity));
    }
  }

  /** No knapsack is empty or overfull at any point of its filling. */
  lemma {:induction false} PackFits<T(!new)>(items: seq<Item<T>>, capacity: int, k: nat, n: nat)
    requires SortedItems(items) && Packable(items, capacity) && k < |Pack(items, capacity)|
    ensures Pack(items, capacity)[k] != []
    ensures 0 < n <= |Pack(items, capacity)[k]| ==> Total(Pack(items, capacity)[k][..n]) <= capacity
    decreases |items|
  {
    FirstFits(items, capacity);
    LeftSorted(items, capacity);
    if k == 0 {
      if 0 < n <= |Taken(items, capacity)| {
        PrefixFits(items, capacity, n);
      }
    } else {
      PackFits(Left(items, capacity), capacity, k - 1, n);
    }
  }

  lemma {:induction false} PackMember<T(!new)>(items: seq<Item<T>>, capacity: int, k: nat, x: Item<T>)
    requires SortedItems(items) && Packable(items, capacity) && k < |Pack(items, capacity)| && x in Pack(items, capacity)[k]
    ensures x in items
    decreases |items|
  {
    FirstFits(items, capacity);
    LeftSorted(items, capacity);
    FillConserves(items, capacity);
    if k == 0 {
      assert x in multiset(Taken(items, capacity));
      assert x in multiset(items);
    } else {
      PackMember(Left(items, capacity), capacity, k - 1, x);
      assert x in multiset(Left(items, capacity));
      assert x in multiset(items);
    }
  }

  /** No item of a later knapsack fits in the space left in an earlier one. */
  lemma {:induction false} LaterItemsDoNotFit<T(!new)>(items: seq<Item<T>>, capacity: int, i: nat, j: nat, x: Item<T>)
    requires SortedItems(items) && Packable(items, capacity) && i < j < |Pack(items, capacity)|
    requires x in Pack(items, capacity)[j]
    ensures capacity < Total(Pack(items, capacity)[i]) + x.size
    decreases |items|
  {
    FirstFits(items, capacity);
    LeftSorted(items, capacity);
    var left := Left(items, capacity);
    if i == 0 {
      PackMember(left, capacity, j - 1, x);
      var n :| 0 <= n < |left| && left[n] == x;
      NothingLeftFits(items, capacity, n);
    } else {
      LaterItemsDoNotFit(left, capacity, i - 1, j - 1, x);
    }
  }

  predicate NonNegative<T>(items: seq<Item<T>>) {
    forall i :: 0 <= i < |items| ==> 0 <= items[i].size
  }

  lemma {:induction false} TotalAtLeast<T>(items: seq<Item<T>>, x: Item<T>)
    requires NonNegative(items)
    ensures 0 <= Total(items) && (x in items ==> x.size <= Total(items))
  {
    if items != [] {
      TotalAtLeast(items[1..], x);
    }
  }

  lemma {:induction false} TotalNonNegative<T>(items: seq<Item<T>>)
    requires NonNegative(items)
    ensures 0 <= Total(items)
  {
    if items != [] {
      TotalNonNegative(items[1..]);
    }
  }

  /** With non-negative sizes any two knapsacks together exceed the capacity. */
  lemma {:induction false} LoadsExceed<T(!new)>(items: seq<Item<T>>, capacity: int, i: nat, j: nat)
    requires SortedItems(items) && Packable(items, capacity) && NonNegative(items) && i < j < |Pack(items, capacity)|
    ensures capacity < Total(Pack(items, capacity)[i]) + Total(Pack(items, capacity)[j])
  {
    PackFits(items, capacity, j, 0);
    var late := Pack(items, capacity)[j];
    LaterItemsDoNotFit(items, capacity, i, j, late[0]);
    forall n | 0 <= n < |late|
      ensures 0 <= late[n].size
    {
      PackMember(items, capacity, j, late[n]);
    }
    TotalAtLeast(late, late[0]);
  }

  /** The combined load of all packs. */
  function Load<T>(packs: seq<seq<Item<T>>>): int {
    if packs == [] then 0 else Total(packs[0]) + Load(packs[1..])
  }

  lemma {:induction false} LoadIsTotal<T>(packs: seq<seq<Item<T>>>)
    ensures Total(Flatten(packs)) == Load(packs)
  {
    if packs != [] {
      LoadIsTotal(packs[1..]);
      FlattenFirst(packs);
      TotalConcat(packs[0], Flatten(packs[1..]));
    }
  }

  lemma MulStep(m: nat, x: int)
    ensures (m + 1) * x == m * x + x
  {
  }

  lemma {:induction false} LoadAtMost<T>(bins: seq<seq<Item<T>>>, capacity: int)
    requires forall b :: 0 <= b < |bins| ==> Total(bins[b]) <= capacity
    ensures Load(bins) <= |bins| * capacity
  {
    if bins != [] {
      LoadAtMost(bins[1..], capacity);
      MulStep(|bins| - 1, capacity);
    }
  }

  function Zip<T>(itemSizes: seq<int>, samples: seq<T>): (r: seq<Item<T>>)
    requires |itemSizes| == |samples|
    ensures |r| == |samples|
  {
    seq(|samples|, i requires 0 <= i < |samples| => Item(itemSizes[i], samples[i]))
  }

  /** The items in the order `greedy_knapsack` works on. */
  function Queue<T>(itemSizes: seq<int>, samples: seq<T>): (r: seq<Item<T>>)
    requires |itemSizes| == |samples|
  {
    SortBy(Zip(itemSizes, samples), (x: Item<T>) => x.size)
  }

  lemma {:induction false} QueueProperties<T>(itemSizes: seq<int>, samples: seq<T>)
    requires |itemSizes| == |samples|
    ensures SortedItems(Queue(itemSizes, samples)) && |Queue(itemSizes, samples)| == |samples|
    ensures multiset(Queue(itemSizes, samples)) == multiset(Zip(itemSizes, samples))
  {
    SortBySorts(Zip(itemSizes, samples), (x: Item<T>) => x.size);
  }

  lemma {:induction false} QueuePackableIff<T>(itemSizes: seq<int>, samples: seq<T>, capacity: int)
    requires |itemSizes| == |samples|
    ensures Packable(Queue(itemSizes, samples), capacity) <==> forall i :: 0 <= i < |itemSizes| ==> itemSizes[i] <= capacity
  {
    QueueProperties(itemSizes, samples);
    var queue, zipped := Queue(itemSizes, samples), Zip(itemSizes, samples);
    if Packable(queue, capacity) {
      forall i | 0 <= i < |itemSizes|
        ensures itemSizes[i] <= capacity
      {
        assert zipped[i] in multiset(zipped);
        assert zipped[i] in queue;
      }
    }
    if forall i :: 0 <= i < |itemSizes| ==> itemSizes[i] <= capacity {
      forall i | 0 <= i < |queue|
        ensures queue[i].size <= capacity
      {
        assert queue[i] in multiset(queue);
        assert queue[i] in zipped;
      }
    }
  }

  /** One knapsack: pop the best fit from both lists until nothing fits. */
  method FillOne<T>(sizes: seq<int>, samples: seq<T>, capacity: int, ghost items: seq<Item<T>>)
    returns (knapsack: seq<T>, restSizes: seq<int>, restSamples: seq<T>)
    requires sizes == Sizes(items) && samples == Samples(items)
    ensures knapsack == Samples(Taken(items, capacity))
    ensures restSizes == Sizes(Left(items, capacity)) && restSamples == Samples(Left(items, capacity))
  {
    knapsack, restSizes, restSamples := [], sizes, samples;
    var remaining := capacity;
    ghost var now := items;
    var idx := SearchForFit(restSizes, remaining);
    while idx != -1
      invariant restSizes == Sizes(now) && restSamples == Samples(now) && idx == Fit(now, remaining)
      invariant knapsack + Samples(Taken(now, remaining)) == Samples(Taken(items, capacity))
      invariant Left(now, remaining) == Left(items, capacity)
      decreases |now|
    {
      ghost var rest := Without(now, idx);
      PopStep(now, remaining, idx, knapsack);
      remaining := remaining - restSizes[idx];
      knapsack := knapsack + [restSamples[idx]];
      restSizes := Without(restSizes, idx);
      restSamples := Without(restSamples, idx);
      now := rest;
      idx := SearchForFit(restSizes, remaining);
    }
  }

  lemma {:induction false} PopStep<T>(items: seq<Item<T>>, capacity: int, i: nat, done: seq<T>)
    requires i < |items| && i == Fit(items, capacity)
    ensures var x, rest := items[i], Without(items, i);
            && Without(Sizes(items), i) == Sizes(rest) && Without(Samples(items), i) == Samples(rest)
            && done + Samples(Taken(items, capacity)) == done + [x.sample] + Samples(Taken(rest, capacity - x.size))
            && Left(items, capacity) == Left(rest, capacity - x.size)
  {
    var x, rest := items[i], Without(items, i);
    WithoutProjects(items, i);
    var taken := Taken(rest, capacity - x.size);
    FillUnfold(items, capacity, i);
    assert Samples([x] + taken) == [x.sample] + Samples(taken);
  }

  lemma WithoutProjects<T>(items: seq<Item<T>>, i: nat)
    requires i < |items|
    ensures Without(Sizes(items), i) == Sizes(Without(items, i)) && Without(Samples(items), i) == Samples(Without(items, i))
  {
    WithoutSlices(items, i);
    WithoutSlices(Sizes(items), i);
    WithoutSlices(Samples(items), i);
  }

  function PackSamples<T>(packs: seq<seq<Item<T>>>): (r: seq<seq<T>>)
    ensures |r| == |packs|
  {
    seq(|packs|, i requires 0 <= i < |packs| => Samples(packs[i]))
  }

  /** `greedy_knapsack`: refuses lists of different lengths and samples above the capacity; otherwise
      fills knapsack after knapsack until no sample is left. */
  method GreedyKnapsack<T(!new)>(itemSizes: seq<int>, samples: seq<T>, maxCapacity: int) returns (r: Result<seq<seq<T>>>)
    ensures r.Ok? <==> |itemSizes| == |samples| && forall i :: 0 <= i < |itemSizes| ==> itemSizes[i] <= maxCapacity
    ensures r.Ok? ==> SortedItems(Queue(itemSizes, samples)) && Packable(Queue(itemSizes, samples), maxCapacity)
    ensures r.Ok? ==> r.value == PackSamples(Pack(Queue(itemSizes, samples), maxCapacity))
  {
    if |itemSizes| != |samples| {
      return Err;
    }
    QueueProperties(itemSizes, samples);
    QueuePackableIff(itemSizes, samples, maxCapacity);
    if |itemSizes| == 0 {
      return Ok([]);
    }
    var queue := Queue(itemSizes, samples);
    if queue[|queue| - 1].size > maxCapacity {
      return Err;
    }
    assert Packable(queue, maxCapacity);
    var knapsacks := FillAll(queue, maxCapacity);
    r := Ok(knapsacks);
  }

  lemma PackStep<T(!new)>(items: seq<Item<T>>, capacity: int, done: seq<seq<T>>)
    requires SortedItems(items) && Packable(items, capacity) && items != []
    ensures |Left(items, capacity)| < |items| && SortedItems(Left(items, capacity)) && Packable(Left(items, capacity), capacity)
    ensures done + PackSamples(Pack(items, capacity))
         == done + [Samples(Taken(items, capacity))] + PackSamples(Pack(Left(items, capacity), capacity))
  {
    FirstFits(items, capacity);
    LeftSorted(items, capacity);
    var rest := Pack(Left(items, capacity), capacity);
    assert Pack(items, capacity) == [Taken(items, capacity)] + rest;
    assert PackSamples([Taken(items, capacity)] + rest) == [Samples(Taken(items, capacity))] + PackSamples(rest);
  }

  method FillAll<T(!new)>(queue: seq<Item<T>>, maxCapacity: int) returns (knapsacks: seq<seq<T>>)
    requires SortedItems(queue) && Packable(queue, maxCapacity)
    ensures knapsacks == PackSamples(Pack(queue, maxCapacity))
  {
    var sizes, samples := Sizes(queue), Samples(queue);
    knapsacks := [];
    ghost var now := queue;
    while sizes != []
      invariant sizes == Sizes(now) && samples == Samples(now)
      invariant SortedItems(now) && Packable(now, maxCapacity)
      invariant knapsacks + PackSamples(Pack(now, maxCapacity)) == PackSamples(Pack(queue, maxCapacity))
      decreases |now|
    {
      FirstFits(now, maxCapacity);
      LeftSorted(now, maxCapacity);
      var knapsack;
      knapsack, sizes, samples := FillOne(sizes, samples, maxCapacity, now);
      ghost var rest := Left(now, maxCapacity);
      PackStep(now, maxCapacity, knapsacks);
      knapsacks := knapsacks + [knapsack];
      now := rest;
    }
  }

  lemma {:induction false} SamplesPermuted<T>(a: seq<Item<T>>, b: seq<Item<T>>)
    requires multiset(a) == multiset(b)
    ensures multiset(Samples(a)) == multiset(Samples(b))
  {
    assert |multiset(a)| == |a| && |multiset(b)| == |b|;
    if a != [] {
      assert a[0] in multiset(b);
      var i :| 0 <= i < |b| && b[i] == a[0];
      WithoutMultiset(a, 0);
      WithoutMultiset(b, i);
      assert multiset(a[1..]) == multiset(a) - multiset{a[0]};
      assert multiset(Without(b, i)) == multiset(b) - multiset{a[0]};
      SamplesPermuted(a[1..], Without(b, i));
      SamplesWithout(a, 0);
      SamplesWithout(b, i);
    }
  }

  lemma {:induction false} SamplesWithout<T>(s: seq<Item<T>>, i: nat)
    requires i < |s|
    ensures multiset(Samples(s)) == multiset(Samples(Without(s, i))) + multiset{s[i].sample}
  {
    WithoutSlices(s, i);
    WithoutSlices(Samples(s), i);
    assert Without(Samples(s), i) == Samples(Without(s, i));
    WithoutMultiset(Samples(s), i);
  }

  lemma {:induction false} FlattenSamples<T>(packs: seq<seq<Item<T>>>)
    ensures Flatten(PackSamples(packs)) == Samples(Flatten(packs))
  {
    if packs != [] {
      FlattenSamples(packs[1..]);
      FlattenFirst(packs);
      FlattenFirst(PackSamples(packs));
      assert PackSamples(packs)[1..] == PackSamples(packs[1..]);
    }
  }

  /** The knapsacks together hold exactly the given samples, with multiplicity. */
  lemma {:induction false} SamplesConserved<T(!new)>(itemSizes: seq<int>, samples: seq<T>, capacity: int)
    requires |itemSizes| == |samples|
    requires SortedItems(Queue(itemSizes, samples)) && Packable(Queue(itemSizes, samples), capacity)
    ensures multiset(Flatten(PackSamples(Pack(Queue(itemSizes, samples), capacity)))) == multiset(samples)
  {
    var queue := Queue(itemSizes, samples);
    PackConserves(queue, capacity);
    QueueProperties(itemSizes, samples);
    FlattenSamples(Pack(queue, capacity));
    SamplesPermuted(Flatten(Pack(queue, capacity)), Zip(itemSizes, samples));
    assert Samples(Zip(itemSizes, samples)) == samples;
  }
}
