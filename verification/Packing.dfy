/** From one sample to a packed sequence: truncation, selection and packing. */
module Packing {
  import opened Knapsack
  import opened Sequences

  const IGNORE_INDEX: int := -100

  function Sum(s: seq<nat>): nat {
    if s == [] then 0 else s[0] + Sum(s[1..])
  }

  /** `_get_total_seq_length`: text tokens plus image embeddings, each image token replaced by its tiles. */
  function TotalSeqLength(textLen: nat, numTiles: seq<nat>, perTile: nat): int {
    textLen + Sum(numTiles) * perTile - |numTiles|
  }

  /** Python's `s[:k]`: a negative bound counts from the end. */
  function SliceTo<T>(s: seq<T>, k: int): (r: seq<T>)
    ensures r <= s
    ensures |r| == if k < 0 then (if |s| + k < 0 then 0 else |s| + k) else if k < |s| then k else |s|
  {
    if k < 0 then (if |s| + k < 0 then [] else s[..|s| + k]) else if k < |s| then s[..k] else s
  }

  /** How many text tokens fit beside the image embeddings. */
  function TextBudget(numTiles: seq<nat>, perTile: nat, packingLength: int): int {
    packingLength - Sum(numTiles) * perTile + |numTiles|
  }

  /** `_truncate_for_packing`: cut tokens and labels to the budget; refuse a sample without labels left. */
  function TruncateForPacking(inputIds: seq<int>, target: seq<int>, numTiles: seq<nat>, perTile: nat, packingLength: int):
    (r: Result<(seq<int>, seq<int>)>)
  {
    var budget := TextBudget(numTiles, perTile, packingLength);
    var ids, labels := SliceTo(inputIds, budget), SliceTo(target, budget);
    if forall i :: 0 <= i < |labels| ==> labels[i] == IGNORE_INDEX then Err else Ok((ids, labels))
  }

  /** A truncated sample fits the packing length exactly when the text budget is not negative. */
  lemma TruncatedFitsIff(inputIds: seq<int>, target: seq<int>, numTiles: seq<nat>, perTile: nat, packingLength: int)
    requires TruncateForPacking(inputIds, target, numTiles, perTile, packingLength).Ok?
    ensures TotalSeqLength(|TruncateForPacking(inputIds, target, numTiles, perTile, packingLength).value.0|, numTiles, perTile) <= packingLength
       <==> 0 <= TextBudget(numTiles, perTile, packingLength)
  {
    var budget := TextBudget(numTiles, perTile, packingLength);
    var ids := SliceTo(inputIds, budget);
    assert TotalSeqLength(|ids|, numTiles, perTile) == |ids| + packingLength - budget;
  }

  lemma SliceIs<T>(s: seq<T>, room: nat)
    ensures SliceTo(s, room) == s[..if room < |s| then room else |s|]
  {
  }

  /** What truncation keeps of tokens and labels: the leading stretch that fits beside the image embeddings; and it
      keeps the sample exactly when some label of that stretch is not ignored. */
  lemma TruncatedIs(inputIds: seq<int>, target: seq<int>, numTiles: seq<nat>, perTile: nat, packingLength: int, room: nat)
    requires room + Sum(numTiles) * perTile == packingLength + |numTiles|
    ensures var r := TruncateForPacking(inputIds, target, numTiles, perTile, packingLength);
            && (r.Ok? <==> exists i :: 0 <= i < |target| && i < room && target[i] != IGNORE_INDEX)
            && (r.Ok? ==> r.value.0 == inputIds[..if room < |inputIds| then room else |inputIds|])
            && (r.Ok? ==> r.value.1 == target[..if room < |target| then room else |target|])
  {
    assert TextBudget(numTiles, perTile, packingLength) == room;
    SliceIs(inputIds, room);
    SliceIs(target, room);
    KeptIff(target, SliceTo(target, room), room);
  }

  lemma KeptIff(target: seq<int>, labels: seq<int>, room: nat)
    requires labels == target[..if room < |target| then room else |target|]
    ensures (exists i :: 0 <= i < |labels| && labels[i] != IGNORE_INDEX) <==>
            (exists i :: 0 <= i < |target| && i < room && target[i] != IGNORE_INDEX)
  {
    assert forall i :: 0 <= i < |labels| ==> labels[i] == target[i];
  }

  /** A sequence in which the image tokens are replaced, in order, by the embeddings of their tiles. */
  function Expanded(tokens: seq<int>, image: int, numTiles: seq<nat>, perTile: nat): seq<Option<int>>
    decreases |tokens|
  {
    if tokens == [] then []
    else if tokens[0] == image && numTiles != [] then
      seq(numTiles[0] * perTile, _ => None) + Expanded(tokens[1..], image, numTiles[1..], perTile)
    else [Some(tokens[0])] + Expanded(tokens[1..], image, numTiles, perTile)
  }

  /** The total length is the length of that sequence when there is one image token for every image. */
  lemma {:induction false} TotalIsExpanded(tokens: seq<int>, image: int, numTiles: seq<nat>, perTile: nat)
    requires Count(tokens, image) == |numTiles|
    ensures |Expanded(tokens, image, numTiles, perTile)| == TotalSeqLength(|tokens|, numTiles, perTile)
    decreases |tokens|
  {
    if tokens != [] {
      if tokens[0] == image {
        TotalIsExpanded(tokens[1..], image, numTiles[1..], perTile);
        assert Sum(numTiles) * perTile == numTiles[0] * perTile + Sum(numTiles[1..]) * perTile;
      } else {
        TotalIsExpanded(tokens[1..], image, numTiles, perTile);
      }
    }
  }

  /** With a negative budget a sample can still be accepted, and is then too long: nine of ten text
      tokens survive beside 200 image embeddings in a packing length of 198. */
  lemma NegativeBudgetOverflows()
    ensures var r := TruncateForPacking([1, 2, 3, 4, 5, 6, 7, 8, 9, 10], [1, 2, 3, 4, 5, 6, 7, 8, 9, 10], [2], 100, 198);
            && TextBudget([2], 100, 198) == -1 && r.Ok? && |r.value.0| == 9
            && TotalSeqLength(|r.value.0|, [2], 100) == 208
  {
    assert [2][1..] == [] && Sum([2]) == 2 + Sum([]);
    var labels := SliceTo([1, 2, 3, 4, 5, 6, 7, 8, 9, 10], -1);
    assert labels[0] == 1;
  }

  datatype Sample = Sample(tokens: seq<int>, labels: seq<int>, imgs: seq<int>, numTiles: seq<nat>, totalLen: int)

  datatype Content = Content(tokens: seq<int>, labels: seq<int>, imgs: seq<int>, numTiles: seq<nat>) {
    function Add(s: Sample): Content {
      Content(tokens + s.tokens, labels + s.labels, imgs + s.imgs, numTiles + s.numTiles)
    }
  }

  datatype Packed = Packed(content: Content, maxLength: int, cuLengths: seq<int>)

  function Lengths(samples: seq<Sample>): (r: seq<int>)
    ensures |r| == |samples|
  {
    seq(|samples|, i requires 0 <= i < |samples| => samples[i].totalLen)
  }

  function SumLengths(samples: seq<Sample>): int {
    if samples == [] then 0 else SumLengths(samples[..|samples| - 1]) + samples[|samples| - 1].totalLen
  }

  /** `select_samples_to_pack`. */
  method SelectSamplesToPack(samples: seq<Sample>, packingLength: int) returns (r: Result<seq<seq<Sample>>>)
    ensures r.Ok? <==> forall i :: 0 <= i < |samples| ==> samples[i].totalLen <= packingLength
    ensures r.Ok? ==> SortedItems(Queue(Lengths(samples), samples)) && Packable(Queue(Lengths(samples), samples), packingLength)
    ensures r.Ok? ==> r.value == Selected(samples, packingLength)
  {
    r := GreedyKnapsack(Lengths(samples), samples, packingLength);
    if r.Err? {
      assert exists i :: 0 <= i < |samples| && Lengths(samples)[i] > packingLength;
    } else {
      assert forall i :: 0 <= i < |samples| ==> Lengths(samples)[i] == samples[i].totalLen;
    }
  }

  function Selected(samples: seq<Sample>, packingLength: int): seq<seq<Sample>>
    requires SortedItems(Queue(Lengths(samples), samples)) && Packable(Queue(Lengths(samples), samples), packingLength)
  {
    PackSamples(Pack(Queue(Lengths(samples), samples), packingLength))
  }

  /** Every running total of the group stays within the packing length. */
  ghost predicate RunsWithin(samples: seq<Sample>, packingLength: int) {
    forall n :: 0 < n <= |samples| ==> SumLengths(samples[..n]) <= packingLength
  }

  /** The samples one after another. */
  function Concatenated(samples: seq<Sample>): Content {
    if samples == [] then Content([], [], [], [])
    else Concatenated(samples[..|samples| - 1]).Add(samples[|samples| - 1])
  }

  lemma {:induction false} EachAppend<T>(samples: seq<Sample>, field: Sample -> seq<T>)
    requires samples != []
    ensures var n := |samples| - 1; Each(samples, field) == Each(samples[..n], field) + [field(samples[n])]
  {
  }

  /** One field of every sample. */
  function Each<T>(samples: seq<Sample>, field: Sample -> seq<T>): (r: seq<seq<T>>)
    ensures |r| == |samples| && forall i :: 0 <= i < |r| ==> r[i] == field(samples[i])
  {
    seq(|samples|, i requires 0 <= i < |samples| => field(samples[i]))
  }

  /** The packed tokens, labels, images and tile counts are those of the samples, field by field and in order. */
  lemma {:induction false} ConcatenatedIs(samples: seq<Sample>)
    ensures Concatenated(samples) ==
            Content(Flatten(Each(samples, (s: Sample) => s.tokens)), Flatten(Each(samples, (s: Sample) => s.labels)),
                    Flatten(Each(samples, (s: Sample) => s.imgs)), Flatten(Each(samples, (s: Sample) => s.numTiles)))
  {
    if samples != [] {
      var n := |samples| - 1;
      ConcatenatedIs(samples[..n]);
      EachAppend(samples, (s: Sample) => s.tokens);
      FlattenAppend(Each(samples[..n], (s: Sample) => s.tokens), samples[n].tokens);
      EachAppend(samples, (s: Sample) => s.labels);
      FlattenAppend(Each(samples[..n], (s: Sample) => s.labels), samples[n].labels);
      EachAppend(samples, (s: Sample) => s.imgs);
      FlattenAppend(Each(samples[..n], (s: Sample) => s.imgs), samples[n].imgs);
      EachAppend(samples, (s: Sample) => s.numTiles);
      FlattenAppend(Each(samples[..n], (s: Sample) => s.numTiles), samples[n].numTiles);
    }
  }

  function CuLengths(samples: seq<Sample>): (r: seq<int>)
    ensures |r| == |samples| + 1
  {
    if samples == [] then [0] else CuLengths(samples[..|samples| - 1]) + [SumLengths(samples)]
  }

  function MaxLength(samples: seq<Sample>): (m: int)
    ensures 0 <= m
  {
    if samples == [] then 0
    else
      var m, len := MaxLength(samples[..|samples| - 1]), samples[|samples| - 1].totalLen;
      if len > m then len else m
  }

  /** The cumulative lengths are the prefix sums. */
  lemma {:induction false} CuLengthsArePrefixSums(samples: seq<Sample>, n: nat)
    requires n <= |samples|
    ensures CuLengths(samples)[n] == SumLengths(samples[..n])
  {
    if n == |samples| {
      assert samples[..n] == samples;
    } else {
      var last := |samples| - 1;
      CuLengthsArePrefixSums(samples[..last], n);
      assert samples[..last][..n] == samples[..n];
    }
  }

  ghost predicate IsLargestGap(cuLengths: seq<int>, m: int) {
    && (forall i :: 0 < i < |cuLengths| ==> cuLengths[i] - cuLengths[i - 1] <= m)
    && (m == 0 || exists i :: 0 < i < |cuLengths| && cuLengths[i] - cuLengths[i - 1] == m)
  }

  /** `max_length` is the largest gap between cumulative lengths. */
  lemma {:induction false} MaxLengthIsLargestGap(samples: seq<Sample>)
    ensures IsLargestGap(CuLengths(samples), MaxLength(samples))
  {
    if samples != [] {
      var last := |samples| - 1;
      MaxLengthIsLargestGap(samples[..last]);
      CuLengthsArePrefixSums(samples[..last], last);
      assert samples[..last][..last] == samples[..last];
      GapStep(CuLengths(samples[..last]), SumLengths(samples), MaxLength(samples[..last]), samples[last].totalLen);
    }
  }

  lemma GapStep(cu: seq<int>, next: int, m: int, gap: int)
    requires cu != [] && gap == next - cu[|cu| - 1] && IsLargestGap(cu, m)
    ensures IsLargestGap(cu + [next], if gap > m then gap else m)
  {
    var all := cu + [next];
    assert forall i :: 0 <= i < |cu| ==> all[i] == cu[i];
    assert all[|cu|] - all[|cu| - 1] == gap;
    if gap <= m && m != 0 {
      var i :| 0 < i < |cu| && cu[i] - cu[i - 1] == m;
      assert all[i] - all[i - 1] == m;
    }
  }

  /** `pack_selected_samples`: concatenates the samples and records the cumulative lengths; it fails on
      an empty group and on a running total above the packing length. */
  method PackSelectedSamples(samples: seq<Sample>, packingLength: int) returns (r: Result<Packed>)
    ensures r.Ok? <==> samples != [] && RunsWithin(samples, packingLength)
    ensures r.Ok? ==> r.value == Packed(Concatenated(samples), MaxLength(samples), CuLengths(samples))
  {
    var content := Content([], [], [], []);
    var currentLength, maxLength, cuLengths := 0, 0, [0];
    for i := 0 to |samples|
      invariant currentLength == SumLengths(samples[..i]) && maxLength == MaxLength(samples[..i])
      invariant cuLengths == CuLengths(samples[..i]) && content == Concatenated(samples[..i])
      invariant forall n :: 0 < n <= i ==> SumLengths(samples[..n]) <= packingLength
    {
      var sample := samples[i];
      assert samples[..i + 1][..i] == samples[..i];
      if sample.totalLen > maxLength {
        maxLength := sample.totalLen;
      }
      if currentLength + sample.totalLen > packingLength {
        assert SumLengths(samples[..i + 1]) > packingLength;
        return Err;
      }
      content := content.Add(sample);
      currentLength := currentLength + sample.totalLen;
      cuLengths := cuLengths + [currentLength];
    }
    assert samples[..|samples|] == samples;
    if samples == [] {
      return Err;
    }
    r := Ok(Packed(content, maxLength, cuLengths));
  }

  lemma {:induction false} SumIsTotal(items: seq<Item<Sample>>)
    requires forall i :: 0 <= i < |items| ==> items[i].size == items[i].sample.totalLen
    ensures SumLengths(Samples(items)) == Total(items)
  {
    if items != [] {
      var last := |items| - 1;
      assert Samples(items)[..last] == Samples(items[..last]);
      SumIsTotal(items[..last]);
      assert items == items[..last] + [items[last]];
      TotalConcat(items[..last], [items[last]]);
      assert [items[last]][1..] == [];
      assert Total([items[last]]) == items[last].size + Total<Sample>([]);
    }
  }

  /** The error branch of packing is dead for selected groups: each of them is non-empty and never runs
      over the packing length, so packing it succeeds. */
  lemma {:induction false} SelectedGroupsPack(samples: seq<Sample>, packingLength: int, k: nat)
    requires SortedItems(Queue(Lengths(samples), samples)) && Packable(Queue(Lengths(samples), samples), packingLength)
    requires k < |Selected(samples, packingLength)|
    ensures Selected(samples, packingLength)[k] != [] && RunsWithin(Selected(samples, packingLength)[k], packingLength)
  {
    var queue := Queue(Lengths(samples), samples);
    var pack := Pack(queue, packingLength)[k];
    PackFits(queue, packingLength, k, 0);
    forall n | 0 < n <= |pack|
      ensures SumLengths(Samples(pack)[..n]) <= packingLength
    {
      PackFits(queue, packingLength, k, n);
      forall i | 0 <= i < n
        ensures pack[..n][i].size == pack[..n][i].sample.totalLen
      {
        PackMember(queue, packingLength, k, pack[i]);
        QueueEntry(samples, pack[i]);
      }
      SumIsTotal(pack[..n]);
      assert Samples(pack)[..n] == Samples(pack[..n]);
    }
  }

  lemma {:induction false} QueueEntry(samples: seq<Sample>, x: Item<Sample>)
    requires x in Queue(Lengths(samples), samples)
    ensures x.size == x.sample.totalLen
  {
    var queue, zipped := Queue(Lengths(samples), samples), Zip(Lengths(samples), samples);
    QueueProperties(Lengths(samples), samples);
    assert x in multiset(queue);
    assert x in zipped;
  }

  /** A sample as the encoders leave it: truncated tokens and labels, and their total length. */
  ghost predicate Encoded(s: Sample, perTile: nat, packingLength: int) {
    && s.totalLen == TotalSeqLength(|s.tokens|, s.numTiles, perTile)
    && exists ids, target :: TruncateForPacking(ids, target, s.numTiles, perTile, packingLength) == Ok((s.tokens, s.labels))
  }

  /** Encoded samples can be selected exactly when none of them had a negative text budget. */
  lemma EncodedSelectableIff(samples: seq<Sample>, perTile: nat, packingLength: int)
    requires forall i :: 0 <= i < |samples| ==> Encoded(samples[i], perTile, packingLength)
    ensures (forall i :: 0 <= i < |samples| ==> samples[i].totalLen <= packingLength) <==>
            (forall i :: 0 <= i < |samples| ==> 0 <= TextBudget(samples[i].numTiles, perTile, packingLength))
  {
    forall i | 0 <= i < |samples|
      ensures samples[i].totalLen <= packingLength <==> 0 <= TextBudget(samples[i].numTiles, perTile, packingLength)
    {
      var s := samples[i];
      assert Encoded(s, perTile, packingLength);
      var ids, target :| TruncateForPacking(ids, target, s.numTiles, perTile, packingLength) == Ok((s.tokens, s.labels));
      TruncatedFitsIff(ids, target, s.numTiles, perTile, packingLength);
    }
  }
}
