# Verified model of the training stack's placement, packing, layout and scheduling logic

A Dafny model of the parts of the repository whose correctness rests on counting arguments: which rank belongs to
which process group, which samples share a packed sequence, which spans share a line of a trace, how the launcher
divides cores and joins its threads, and how training schedules evolve and resume. `dafny verify dfyconfig.toml`
checks the whole project.

## Layout

| files | models |
|---|---|
| `Arith`, `Sequences`, `Sorting`, `Strings` | shared facts about division, lists of lists, stable sorting, splitting and joining |
| `MixedRadix`, `RankGroups` | mixed-radix ranks and `generate_masked_orthogonal_rank_groups` |
| `Einops`, `HyperCommGrid` | the reshape-based enumeration, the ordering of dimensions and the group registry |
| `Hierarchy`, `RankGenerator`, `ModelParallel` | hierarchical groups, rank generators, and the agreement of attention and expert factorisations |
| `OptimizerInstances`, `OptimizerGroups`, `TwoDims`, `InterGroups` | distributed-optimizer instances under the default order, and inter-instance groups under any order |
| `Knapsack`, `FirstFit`, `Packing` | greedy packing of samples and its bound, truncation, selection and concatenation |
| `SpanLayout`, `SpanGraph`, `SpanPlaces` | the layout of trace spans, on values and on containers updated in place, and the line of every span |
| `JoinProtocol` | the condition-variable protocol between launcher and workers, as interleaved steps |
| `CpuAllocation`, `CoreList` | core allocation, and CPU lists as text |
| `Scheduler`, `MicroBatches` | learning rate, weight decay and batch size over a run |
| `MaskRuns`, `FilePartition` | nonzero stretches of a mask, and partitioning of input files |

## How the source is read

- Python exceptions and failed assertions are the `Err` case of a `Result`, or a `false` flag where a method also
  changes state.
- A process group is its list of ranks. An order of parallel dimensions is a list of distinct tokens, already split
  and in lower case.
- The lines of a process are a list; line number `n` is position `n - 1`. Spans are given with their adjusted end.
- Counts, sizes and offsets are natural numbers. Rates are exact reals, and the number of ramp-up steps is the exact
  quotient rounded down.
- The cosine and the exponential curve are parameters that are only known to fall from 1 to 0. `1 - sqrt(x)` and
  `sqrt(w) / sqrt(n)` are parameters known by the squares that define them.
- The launcher wakes up only when notified. Its threads are all started before it joins them; any of them may be
  finished by then.

## Where the code falls short of what it promises

- The inter-instance group is documented as shared by attention and expert layers. That holds under the default order
  (`DefaultOrderAligned`); `InterGroupsAgreeIff` gives the exact condition for any order, and `OtherOrderDisagrees` an
  order that passes every check and breaks it.
- Truncation promises samples that fit. A negative text budget counts from the end of the text, and the sample can stay too long
  (`TruncatedFitsIff`, `NegativeBudgetOverflows`).
- An empty span on the current line skips the overlap check and can hide a later overlap (`StepTidyIff`,
  `RunTidyIff`, `EmptySpanBreaksLayout`). Spans whose adjusted end lies before their start are harmless.
- An allocation can be missing for a worker that indexes the list (`EveryoneServedIff`, `OneCoreUnserved`), and a
  hyperthread sibling can be another worker's core exactly when some core is the sibling id of a core
  (`IdsDisjointIff`, `SiblingClash`).
- An empty input file is counted as the file before it, which can leave the partitions uneven (`CountIff`,
  `BalancedIff`, `EmptyFileUnbalances`).
- A checkpoint is loaded by adding its steps, so a scheduler that has taken steps of its own does not resume where
  the original stood (`LoadAddsSteps`). Right after loading, the groups carry the weight decay of the values the
  scheduler was made with (`StaleWeightDecay`). `LoadRestoresIff` gives the exact condition for a full restoration.

## Model

| member | source | states |
|---|---|---|
| `MixedRadix.RecombineSplit` | Megatron-LM/megatron/core/parallel_state.py:256-290 | splitting a rank into a group index and a position and recombining them gives the rank back, for any sizes and mask |
| `MixedRadix.SplitRecombine` | Megatron-LM/megatron/core/parallel_state.py:256-290 | the inverse: combining a group index and a position and splitting again gives both back |
| `MixedRadix.PartEqualIffAgree` | Megatron-LM/megatron/core/parallel_state.py:256-276 | two ranks have the same selected part if and only if they agree on every selected coordinate |
| `MixedRadix.RankAtSwap` | Megatron-LM/megatron/core/parallel_state.py:323-328 | complementing the mask swaps group index and position |
| `RankGroups.PrefixProduct` | Megatron-LM/megatron/core/parallel_state.py:293-298 | the loop returns the running products, whose entry k is the product of the first k sizes |
| `RankGroups.DigitsRecompose` | Megatron-LM/megatron/core/parallel_state.py:303-321 | weighing the digits with their strides gives the index back, reduced modulo the product of the shape |
| `RankGroups.RecomposesIff` | Megatron-LM/megatron/core/parallel_state.py:315-320 | the digits recompose to the index if and only if the index is below the product of the shape |
| `RankGroups.Decompose` | Megatron-LM/megatron/core/parallel_state.py:303-321 | returns the digits, and its assertion fires exactly for indices beyond the shape |
| `RankGroups.StrideFormula` | Megatron-LM/megatron/core/parallel_state.py:326-344 | the masked and the unmasked inner product with the global strides add up to the mixed-radix rank |
| `RankGroups.GenerateMaskedOrthogonalRankGroups` | Megatron-LM/megatron/core/parallel_state.py:323-346 | fails exactly when the world asks for more groups than the unmasked dimensions can index; otherwise returns the reference enumeration, and all of it when the sizes multiply to the world size |
| `RankGroups.GroupsPartitionWorld` | Megatron-LM/megatron/core/parallel_state.py:240-346 | for every list of sizes and every mask the groups are strictly increasing lists in which every rank occurs exactly once |
| `RankGroups.GroupsAscend` | Megatron-LM/megatron/core/parallel_state.py:323-346 | the groups come in the order of their first ranks |
| `RankGroups.SameGroupIff` | Megatron-LM/megatron/core/parallel_state.py:256-276 | two ranks share a group if and only if they agree on every unmasked coordinate |
| `RankGroups.ComplementMeetsOnce` | Megatron-LM/megatron/core/parallel_state.py:240-346 | a group and a group of the complementary mask have exactly one rank in common |
| `Einops.RearrangeIsMaskedEnumeration` | Megatron-LM/megatron/core/hyper_comm_grid.py:208-224 | for distinct names, any shape, offset and subset, the reshape-and-transpose enumeration equals the masked digit enumeration shifted by the offset, group by group in the same order |
| `HyperCommGrid.OrderDimsCanonical` | Megatron-LM/megatron/core/hyper_comm_grid.py:226-239 | a servable request in any order is turned into the reversed dimension list restricted to its set, and its key depends only on the set |
| `HyperCommGrid.KeyInjective` | Megatron-LM/megatron/core/hyper_comm_grid.py:226-239 | different sets of dimensions have different registry keys |
| `HyperCommGrid.DocumentedKey` | Megatron-LM/megatron/core/hyper_comm_grid.py:123-126 | the documented example: dp and tp of a grid tp, cp, dp have the key dp-tp, requested in either order |
| `Einops.RereadBack` | Megatron-LM/megatron/core/hyper_comm_grid.py:185-197 | reading a flat position over the same axes in another order and back is the identity, so the order of the requested names permutes the columns |
| `Einops.RearrangeRegroups` | Megatron-LM/megatron/core/hyper_comm_grid.py:208-224 | with the requested names in any order, column j of every row is the entry of the masked enumeration whose index on every axis is the same |
| `Einops.RowSameRanks` | Megatron-LM/megatron/core/hyper_comm_grid.py:185-197 | whatever the order of the requested names, a row lists exactly the ranks of its group |
| `Einops.DocumentedEnumeration` | Megatron-LM/megatron/core/hyper_comm_grid.py:188-195 | the documented example: three dimensions of size 2, the first two requested, give [[0, 2, 1, 3], [4, 6, 5, 7]] |
| `HyperCommGrid.GenRankEnum` | Megatron-LM/megatron/core/hyper_comm_grid.py:181-224 | refuses exactly the requests with an unknown or repeated name; names in the reversed order list the masked enumeration of their set, names in any other order list every group reordered by those names |
| `HyperCommGrid.NewGrid` | Megatron-LM/megatron/core/hyper_comm_grid.py:82-118 | whatever the names and sizes, succeeds exactly when lengths match, the offset is not negative and the grid fits in the world; the registry is empty, and consistent from the start when names are usable as axis names and no size is zero |
| `HyperCommGrid.Grid.CreatePg` | Megatron-LM/megatron/core/hyper_comm_grid.py:120-164 | succeeds exactly for a servable set not yet created, registers its enumeration and changes nothing else |
| `HyperCommGrid.KeyOfRequest` | Megatron-LM/megatron/core/hyper_comm_grid.py:226-239 | any request, servable or not, leads to the key of a set exactly when it lists the names of that set, or is that key as one name |
| `HyperCommGrid.Grid.GetPg` | Megatron-LM/megatron/core/hyper_comm_grid.py:166-179 | for any request, succeeds exactly when it names a created set, and then returns the enumeration of that set; a servable request exactly when its own set was created |
| `Hierarchy.LevelCell` | Megatron-LM/megatron/core/parallel_state.py:378-384 | the pattern (l s u) -> (l u) s puts the strided flat index at each row and column |
| `Hierarchy.LevelIsOneHot` | Megatron-LM/megatron/core/parallel_state.py:377-384 | every level of the split is the one-hot-mask enumeration along that dimension, indexed into the rank list |
| `Hierarchy.LevelMember` | Megatron-LM/megatron/core/parallel_state.py:377-404 | each member rank is in exactly one sub-group of every level |
| `Hierarchy.LevelContaining` | Megatron-LM/megatron/core/parallel_state.py:402-404 | the sub-groups of a level that contain a rank are none for a stranger and exactly its own for a member |
| `Hierarchy.CreateHierarchicalGroups` | Megatron-LM/megatron/core/parallel_state.py:374-408 | for distinct ranks whose number is the product of the level sizes the closing assertions hold and a member collects its own sub-group of every level |
| `RankGenerator.NewGenerator` | Megatron-LM/megatron/core/parallel_state.py:414-453 | succeeds exactly when ep or cp is 1 and every token left out of the order has size 1; the missing tokens are appended |
| `RankGenerator.CompletedProperties` | Megatron-LM/megatron/core/parallel_state.py:440-447 | the completed order extends the given one, holds every token and has no repetition if the given one had none |
| `RankGenerator.OrderedSizesMultiply` | Megatron-LM/megatron/core/parallel_state.py:449-453 | the ordered sizes multiply to the world size whatever the order |
| `RankGenerator.GetMask` | Megatron-LM/megatron/core/parallel_state.py:455-469 | fails exactly on an unknown token; otherwise marks exactly the requested tokens |
| `RankGenerator.GetRanks` | Megatron-LM/megatron/core/parallel_state.py:471-486 | returns the masked enumeration of the ordered sizes, every rank raised by the offset in place |
| `RankGenerator.SharedGroupIff` | Megatron-LM/megatron/core/parallel_state.py:471-486 | for any tokens, order, sizes and offset, two ranks share a group if and only if they have the same coordinate, by the product of the sizes before it in the order, along every token that was not asked for |
| `ModelParallel.OneHotGroupsEqualIff` | Megatron-LM/megatron/core/parallel_state.py:769-772 | groups along one dimension of two factorisations of one world coincide if and only if the dimension is trivial or has the same stride in both |
| `ModelParallel.BothFactorTheWorld` | Megatron-LM/megatron/core/parallel_state.py:693-698 | both factorisations have positive sizes, keep the sizes that were asked for and multiply back to the world size |
| `ModelParallel.PipelineGroupsAgreeIff` | Megatron-LM/megatron/core/parallel_state.py:769-772 | the attention and expert pipeline groups coincide if and only if pp is 1 or both sides place the same number of ranks below the pipeline dimension |
| `ModelParallel.PipelineGroupsAgree` | Megatron-LM/megatron/core/parallel_state.py:763-772 | if the order ends with pp, or pp is 1, they coincide for every pair of factorisations of the world |
| `ModelParallel.BuildGenerators` | Megatron-LM/megatron/core/parallel_state.py:693-772 | the exact configurations that pass every size check and both assertions |
| `OptimizerInstances.CutConsistent` | Megatron-LM/megatron/core/parallel_state.py:787-794 | under the default order every accepted configuration gives two consistent factorisations of the world |
| `OptimizerInstances.IntraIsSlice` | Megatron-LM/megatron/core/parallel_state.py:823-833 | level 0 of the two-level split is the slice of consecutive positions that the attention side cuts out |
| `OptimizerInstances.InterIsStride` | Megatron-LM/megatron/core/parallel_state.py:1222-1238 | level 1 of the split picks the rank at the same place in every instance |
| `OptimizerInstances.BuildInstances` | Megatron-LM/megatron/core/parallel_state.py:1263-1277 | the accumulating loop returns the concatenations of consecutive runs of k model groups |
| `OptimizerInstances.ModelGroupInstance` | Megatron-LM/megatron/core/parallel_state.py:1263-1277 | the tp-ep-pp group of a rank determines its optimizer instance |
| `OptimizerInstances.InstancesPartitionWorld` | Megatron-LM/megatron/core/parallel_state.py:1263-1277 | instance i lists, without repetition, exactly the ranks of the world whose block is i, so the instances partition the world |
| `OptimizerInstances.InstancesAgree` | Megatron-LM/megatron/core/parallel_state.py:787-833 | for every rank the attention chunk and the expert intra-partial group consist of ranks of its own instance, and the inter-instance groups of the attention and the expert side are the same list |
| `OptimizerInstances.RankStaysInInstance` | Megatron-LM/megatron/core/parallel_state.py:1192-1238 | every rank is listed in one instance together with its whole attention chunk and its whole expert intra-partial group |
| `OptimizerInstances.IntraIsOwnPart` | Megatron-LM/megatron/core/parallel_state.py:823-833 | the attention chunk of a rank is exactly the part of its dp-cp group in its instance, and its expert intra-partial group exactly that part of its expert dp group |
| `TwoDims.TwoHotOffset` | Megatron-LM/megatron/core/parallel_state.py:323-346 | in a group that spans two dimensions, the member at position k lies the two strided digits of k above the first member |
| `TwoDims.TwoHotPos` | Megatron-LM/megatron/core/parallel_state.py:256-290 | the position of a rank in such a group is the two-digit number of its two coordinates |
| `OptimizerGroups.InstancesPartition` | Megatron-LM/megatron/core/parallel_state.py:1263-1277 | the instance lists hold every rank of the world once in all |
| `OptimizerGroups.InstanceGroups` | Megatron-LM/megatron/core/parallel_state.py:787-833 | for every accepted configuration the generators, the rank enumerations and the loops give instances that partition the world, a chunk and an intra-instance group inside the instance of the rank, and an inter-instance group equal to the one its attention group would give |
| `InterGroups.SameInterIff` | Megatron-LM/megatron/core/parallel_state.py:805-833 | two factorisations of one world, the attention groups spanning two dimensions, give every rank the same inter-instance group if and only if one of five equations between sizes and strides holds |
| `InterGroups.InterGroupsAgreeIff` | Megatron-LM/megatron/core/parallel_state.py:1903-1912 | for every configuration that passes the size checks and every order of distinct tokens, attention and expert layers share the inter-instance group of every rank if and only if the sizes and strides of dp and cp are aligned with the expert blocks |
| `InterGroups.DefaultOrderAligned` | Megatron-LM/megatron/core/parallel_state.py:1903-1912 | under the default order every accepted configuration is aligned |
| `InterGroups.OtherOrderPasses` | Megatron-LM/megatron/core/parallel_state.py:741-772 | the order tp-dp-cp-ep-pp with ep 2 and two instances on four ranks passes every size check |
| `InterGroups.OtherOrderDisagrees` | Megatron-LM/megatron/core/parallel_state.py:1903-1912 | in that configuration some rank gets different inter-instance groups from the dp-cp groups of attention and the dp groups of the experts |
| `Knapsack.SearchForFitFinds` | Megatron-LM/examples/multimodal/dataset_helpers.py:95-100 | on ascending numbers everything up to the index found fits and everything after it does not |
| `Knapsack.FillConserves` | Megatron-LM/examples/multimodal/dataset_helpers.py:126-140 | filling one knapsack splits the items into those taken and those left, with multiplicity |
| `Knapsack.NothingLeftFits` | Megatron-LM/examples/multimodal/dataset_helpers.py:126-140 | no item left behind fits in the space that remains |
| `Knapsack.PackConserves` | Megatron-LM/examples/multimodal/dataset_helpers.py:125-142 | packing keeps every item, with multiplicity |
| `Knapsack.PackFits` | Megatron-LM/examples/multimodal/dataset_helpers.py:125-142 | no knapsack is empty, and none is overfull at any point of its filling |
| `Knapsack.LaterItemsDoNotFit` | Megatron-LM/examples/multimodal/dataset_helpers.py:125-142 | no item of a later knapsack fits in the space left in an earlier one |
| `Knapsack.LoadsExceed` | Megatron-LM/examples/multimodal/dataset_helpers.py:125-142 | any two knapsacks together hold more than the capacity |
| `FirstFit.PackIsFirstFit` | Megatron-LM/examples/multimodal/dataset_helpers.py:103-142 | filling one knapsack after another with the largest sample that fits gives exactly the knapsacks of first fit decreasing |
| `FirstFit.ThreeHalves` | Megatron-LM/examples/multimodal/dataset_helpers.py:103-142 | twice the knapsacks used are at most three times those of any valid packing of the same samples |
| `Knapsack.QueuePackableIff` | Megatron-LM/examples/multimodal/dataset_helpers.py:117-123 | the sorted queue is packable if and only if no size exceeds the capacity |
| `Knapsack.GreedyKnapsack` | Megatron-LM/examples/multimodal/dataset_helpers.py:103-142 | refuses exactly unequal lengths and oversized samples; otherwise popping from the two lists returns the reference packing |
| `Knapsack.SamplesConserved` | Megatron-LM/examples/multimodal/dataset_helpers.py:103-142 | the knapsacks together hold exactly the given samples, with multiplicity |
| `Packing.TruncatedFitsIff` | Megatron-LM/examples/multimodal/dataset_helpers.py:195-216 | a truncated sample has total length within the packing length if and only if its text budget is not negative |
| `Packing.TruncatedIs` | Megatron-LM/examples/multimodal/dataset_helpers.py:202-216 | where the image embeddings fit, truncation keeps exactly the leading tokens and labels that fit beside them, and the sample if and only if one of those labels is not ignored |
| `Packing.TotalIsExpanded` | Megatron-LM/examples/multimodal/dataset_helpers.py:195-200 | the total length is the length of the token list with every image token replaced by the embeddings of its tiles |
| `Packing.NegativeBudgetOverflows` | Megatron-LM/examples/multimodal/dataset_helpers.py:202-216 | a concrete sample with a negative budget that is accepted and too long |
| `Packing.EncodedSelectableIff` | Megatron-LM/examples/multimodal/dataset_helpers.py:869-880 | truncated samples can be selected if and only if none of them had a negative text budget |
| `Packing.SelectSamplesToPack` | Megatron-LM/examples/multimodal/dataset_helpers.py:869-880 | fails exactly on an oversized sample; otherwise returns the greedy grouping of the samples |
| `Packing.SelectedGroupsPack` | Megatron-LM/examples/multimodal/dataset_helpers.py:905-915 | every selected group is nonempty and no running total of it exceeds the packing length, so the error branch of packing is dead |
| `Packing.PackSelectedSamples` | Megatron-LM/examples/multimodal/dataset_helpers.py:882-942 | succeeds exactly on a nonempty group whose running totals fit; returns the concatenation, the cumulative lengths and the largest length |
| `Packing.ConcatenatedIs` | Megatron-LM/examples/multimodal/dataset_helpers.py:917-942 | the packed tokens, labels, images and tile counts are each the same field of the samples, one after another |
| `Packing.CuLengthsArePrefixSums` | Megatron-LM/examples/multimodal/dataset_helpers.py:901-925 | cu_lengths are the prefix sums of the lengths |
| `Packing.MaxLengthIsLargestGap` | Megatron-LM/examples/multimodal/dataset_helpers.py:906-910 | max_length is the largest gap between cumulative lengths |
| `SpanLayout.CheckOverlapSeparates` | sglang-0.5.10.post1/scripts/convert_otel_2_perfetto.py:58-70 | on a tidy line, for a span of any length, the two-neighbour check answers false if and only if every earlier span ends before it begins and it ends before every other begins |
| `SpanLayout.CheckOverlapSound` | sglang-0.5.10.post1/scripts/convert_otel_2_perfetto.py:58-70 | looking at two neighbours never misses an overlap on a tidy line, whatever the length of the new span |
| `SpanLayout.CheckOverlapIff` | sglang-0.5.10.post1/scripts/convert_otel_2_perfetto.py:58-70 | for spans of positive length the two-neighbour check answers true if and only if some stored span overlaps |
| `SpanLayout.InsertTidy` | sglang-0.5.10.post1/scripts/convert_otel_2_perfetto.py:72-73 | inserting a span that keeps apart from the others keeps a line ordered by start and pairwise disjoint |
| `SpanLayout.StepTidyIff` | sglang-0.5.10.post1/scripts/convert_otel_2_perfetto.py:95-120 | placing any span, also one whose adjusted end lies before its start, keeps every line tidy if and only if it is not an empty span that skips the check and falls inside another |
| `SpanLayout.RunTidyIff` | sglang-0.5.10.post1/scripts/convert_otel_2_perfetto.py:273-288 | over any run of any spans in any order the lines end tidy if and only if no empty span went unchecked into another |
| `SpanLayout.RunAllTidy` | sglang-0.5.10.post1/scripts/convert_otel_2_perfetto.py:273-304 | over any requests in any order, spans that do not end where they start never overlap on a line |
| `SpanLayout.RunAllConserves` | sglang-0.5.10.post1/scripts/convert_otel_2_perfetto.py:273-304 | every span is stored exactly once |
| `SpanLayout.EmptySpanBreaksLayout` | sglang-0.5.10.post1/scripts/convert_otel_2_perfetto.py:95-103 | an empty span placed unchecked lets a later span of positive length overlap an earlier one |
| `SpanLayout.LinesAtLeastLive` | sglang-0.5.10.post1/scripts/convert_otel_2_perfetto.py:95-120 | a layout without overlaps needs at least as many lines as spans are ever live together |
| `SpanLayout.NewLineMeansAllLive` | sglang-0.5.10.post1/scripts/convert_otel_2_perfetto.py:111-120 | a line is opened only when every existing line shows a span at that moment |
| `SpanLayout.LinesOptimal` | sglang-0.5.10.post1/scripts/convert_otel_2_perfetto.py:95-120 | in start order the number of lines is the largest number of spans live at one moment, and no overlap-free layout has fewer |
| `SpanGraph.SpanLayoutContainer.HasOverlap` | sglang-0.5.10.post1/scripts/convert_otel_2_perfetto.py:58-70 | the method answers what the check on the stored intervals says |
| `SpanGraph.SpanLayoutContainer.InsertSpan` | sglang-0.5.10.post1/scripts/convert_otel_2_perfetto.py:72-73 | the container holds one span more, stays in order of start and end, and a tidy line stays tidy when the overlap check raised no conflict |
| `SpanGraph.LayoutGraph.FindOrOpen` | sglang-0.5.10.post1/scripts/convert_otel_2_perfetto.py:95-120 | the line found or opened is the one the reference function names; a slot is recorded exactly when a line is opened |
| `SpanGraph.LayoutGraph.Place` | sglang-0.5.10.post1/scripts/convert_otel_2_perfetto.py:276-288 | one span placed in the graph of containers is one step of the value-level layout |
| `SpanGraph.LayoutGraph.PlaceRequest` | sglang-0.5.10.post1/scripts/convert_otel_2_perfetto.py:274-288 | a request placed span by span is a run of the value-level layout, and every span gets the line number of that run |
| `SpanGraph.RunProjects` | sglang-0.5.10.post1/scripts/convert_otel_2_perfetto.py:95-120 | the processes do not influence one another: each sees a run of its own spans |
| `SpanGraph.RequestsRecord` | sglang-0.5.10.post1/scripts/convert_otel_2_perfetto.py:105-120 | the lines of a process are numbered 1..n, with one slot record for each, in order |
| `SpanGraph.RequestsShow` | sglang-0.5.10.post1/scripts/convert_otel_2_perfetto.py:285-288 | every span stays on the line whose number it was given, whatever is placed later |
| `SpanGraph.OrderKeepsSpans` | sglang-0.5.10.post1/scripts/convert_otel_2_perfetto.py:265-272 | neither sort loses or invents a span |
| `Sorting.SortPlaces` | sglang-0.5.10.post1/scripts/convert_otel_2_perfetto.py:265-272 | sorting is stable: the sorted list is a rearrangement of the given one by key in which equal keys keep their order |
| `SpanGraph.OrderIsOrdered` | sglang-0.5.10.post1/scripts/convert_otel_2_perfetto.py:265-272 | the order of placement: one for one the engine requests, each by the starts of its spans, in the order of their first spans, then the gateway spans by their starts; equal starts keep their order |
| `SpanGraph.GenerateLayout` | sglang-0.5.10.post1/scripts/convert_otel_2_perfetto.py:264-304 | fails exactly when a request has no span; otherwise the containers hold the layout of the requests and gateway spans in start order |
| `SpanGraph.LayoutIsSound` | sglang-0.5.10.post1/scripts/convert_otel_2_perfetto.py:264-304 | for spans that do not end where they start every process shows exactly its own spans on lines free of overlaps with one slot record each |
| `SpanGraph.LayoutIsOptimal` | sglang-0.5.10.post1/scripts/convert_otel_2_perfetto.py:264-304 | where the spans of a process come in start order, no overlap-free layout of them has fewer lines |
| `SpanGraph.OneSourceOptimal` | sglang-0.5.10.post1/scripts/convert_otel_2_perfetto.py:264-304 | for a process whose spans all come from one request, or all from the gateway, no overlap-free layout of them has fewer lines |
| `SpanPlaces.SpanPlacedRight` | sglang-0.5.10.post1/scripts/convert_otel_2_perfetto.py:95-120 | every span stays on the line its request last used on its process if no span there is in its way, and otherwise goes to the first line free of such spans, a new one if need be |
| `SpanPlaces.AcrossRequestsNotOptimal` | sglang-0.5.10.post1/scripts/convert_otel_2_perfetto.py:273-288 | three requests that fit on two lines take three, because the later spans of the first two are placed before the third request |
| `JoinProtocol.StepInv` | byteps/launcher/launch.py:22-41 | every step of every thread keeps mutual exclusion, the placement of indices and the wake-up condition |
| `JoinProtocol.JoinSafety` | byteps/launcher/launch.py:227-246 | in every interleaving no index is stacked or joined twice or joined and stacked, none is joined before its thread is over, and a launcher waiting on a nonempty stack is about to be notified |
| `JoinProtocol.NoDeadlock` | byteps/launcher/launch.py:235-246 | as long as the launcher has neither returned nor raised, some thread can take a step |
| `JoinProtocol.RunsEnd` | byteps/launcher/launch.py:235-246 | no run has more than 48 n + 7 steps |
| `JoinProtocol.OutcomeIsRight` | byteps/launcher/launch.py:37-41 | the launcher returns only after joining every thread once with no exception, and raises only the exception of a finished thread |
| `JoinProtocol.RunsEndRight` | byteps/launcher/launch.py:227-246 | a run that cannot go on has ended, every thread is finished, and the launcher has returned if and only if no thread failed |
| `CpuAllocation.SplitIndex` | byteps/launcher/launch.py:81-84 | the loop finds exactly the positions at which the ids do not go on by one |
| `CpuAllocation.CutAt` | byteps/launcher/launch.py:85-93 | the loop cuts the first ids before every break |
| `CpuAllocation.RunsMaximal` | byteps/launcher/launch.py:81-93 | the pieces are nonempty runs of consecutive ids that cannot be joined, in order, and make up the ids again |
| `CpuAllocation.DeleteFirst` | byteps/launcher/launch.py:98-99 | deleting from the last to the first index removes exactly the first ids of that node |
| `CpuAllocation.GetAllocation` | byteps/launcher/launch.py:74-101 | fails exactly for a quota below one; otherwise takes the first ids of the first node large enough, in place, or nothing |
| `CpuAllocation.AllocateOne` | byteps/launcher/launch.py:132-139 | lowering the quota ends with the largest amount available, and with nothing exactly when there is none |
| `CpuAllocation.AmountIsMost` | byteps/launcher/launch.py:132-139 | a worker gets at least k cores if and only if its quota is at least k and some remaining node has k |
| `CpuAllocation.ServedFrom` | byteps/launcher/launch.py:74-101 | a worker takes the first cores of the first node that has the most cores any node can give it up to its quota; the other nodes keep theirs |
| `CpuAllocation.NotServed` | byteps/launcher/launch.py:132-139 | a worker with a quota below one, or with no core left, gets nothing and changes nothing |
| `CpuAllocation.GetQuota` | byteps/launcher/launch.py:103-122 | fails exactly for a local size of zero; otherwise the two lowering loops give the closed form of the quotas for any settings |
| `CpuAllocation.QuotasExact` | byteps/launcher/launch.py:103-122 | every other worker asks for its setting if the cores allow it for all workers and otherwise for the largest number they allow; the root asks for its setting, or for all cores the others leave, so that the quotas sum to the cores, but never for more than the first node, halved with hyperthreading |
| `CpuAllocation.AllocateCpu` | byteps/launcher/launch.py:124-141 | nothing without nodes; otherwise the allocations of the quotas one after another, and the nodes hold what is left |
| `CpuAllocation.ServeConserves` | byteps/launcher/launch.py:124-141 | the cores taken and the cores left are the cores there were |
| `CpuAllocation.ServeDisjoint` | byteps/launcher/launch.py:124-141 | with disjoint nodes no core is given twice, or given and kept |
| `CpuAllocation.GrantIsRuns` | byteps/launcher/launch.py:81-97 | every worker gets maximal consecutive runs that make up its cores, and with hyperthreading the siblings of the last run |
| `CpuAllocation.QuotasFit` | byteps/launcher/launch.py:103-122 | without overrides the quotas sum to at most the number of cores |
| `CpuAllocation.EveryoneServedIff` | byteps/launcher/launch.py:103-141 | without overrides every worker is served if and only if there are as many cores as workers and the first node, halved with hyperthreading, is not empty |
| `CpuAllocation.OneCoreUnserved` | byteps/launcher/launch.py:103-141 | one worker on a node with a single core and hyperthreading gets nothing |
| `CpuAllocation.IdsDisjointIff` | byteps/launcher/launch.py:94-97 | with hyperthreading and distinct cores, no quotas lead to an id being given out twice if and only if no core is the sibling id of a core |
| `CpuAllocation.IdsDisjoint` | byteps/launcher/launch.py:94-97 | in particular when all physical ids are below the number of cores no id is given out twice, siblings included |
| `CpuAllocation.SiblingClash` | byteps/launcher/launch.py:94-97 | with an id that is not below the number of cores a sibling is another worker's core |
| `CpuAllocation.SiblingClashServed` | byteps/launcher/launch.py:124-141 | a node with the ids 0 and 2 and two workers leads to that allocation |
| `CoreList.ReadSpelled` | byteps/launcher/launch.py:223-223 | a number printed in decimal is read back, with or without a plus sign and whatever white space is around it |
| `CoreList.PrintAllocation` | byteps/launcher/launch.py:175-181 | fails exactly on an empty set; otherwise the comma list of the sets with the trailing comma stripped |
| `CoreList.ParseNumRange` | byteps/launcher/launch.py:215-225 | the loop over the colon-separated items returns all of them, or fails if one of them has a bound that is not a number |
| `CoreList.ReadRange` | byteps/launcher/launch.py:223-223 | numbers joined by dashes are read as everything from the first to the last |
| `CoreList.DocumentedExample` | byteps/launcher/launch.py:215-219 | the documented example 1,4-5,7-11,12:20-25 is read as documented, and its first part is what is printed for those sets |
| `CoreList.SpreadIff` | byteps/launcher/launch.py:177-180 | a printed set is read back as itself if and only if its ids are consecutive |
| `CoreList.RoundTripIff` | byteps/launcher/launch.py:175-225 | printing a list of allocations joined by colons and parsing it gives the list back if and only if every set is consecutive |
| `CoreList.GrantRoundTrip` | byteps/launcher/launch.py:81-97 | every allocation the launcher computes survives printing and parsing |
| `Scheduler.WdRises` | Megatron-LM/megatron/core/optimizer_param_scheduler.py:98-119 | the weight decay never falls and stays between its start and end value |
| `Scheduler.WdLine` | Megatron-LM/megatron/core/optimizer_param_scheduler.py:98-119 | linear weight decay lies on the line from the start value at step 0 to the end value, which then stays |
| `Scheduler.WdCurve` | Megatron-LM/megatron/core/optimizer_param_scheduler.py:98-119 | cosine weight decay follows the cosine curve backwards, read at the share of the steps to come |
| `Scheduler.WarmupRises` | Megatron-LM/megatron/core/optimizer_param_scheduler.py:133-136 | during warm-up the rate climbs from the initial rate to the maximal rate |
| `Scheduler.WarmupLine` | Megatron-LM/megatron/core/optimizer_param_scheduler.py:133-136 | during warm-up the rate lies on the line from the initial to the maximal rate |
| `Scheduler.FlatRates` | Megatron-LM/megatron/core/optimizer_param_scheduler.py:138-144 | after warm-up a constant rate is the maximal rate, and past the end of decay every other rate is the minimal rate |
| `Scheduler.LinearLine` | Megatron-LM/megatron/core/optimizer_param_scheduler.py:154-162 | linear decay lies on the line from the maximal rate at the end of warm-up to the minimal rate at the end of decay |
| `Scheduler.CosineCurve` | Megatron-LM/megatron/core/optimizer_param_scheduler.py:154-164 | cosine decay follows the cosine curve, read at the share of the decay steps that are over |
| `Scheduler.RootSquared` | Megatron-LM/megatron/core/optimizer_param_scheduler.py:146-151 | inverse square root decay: the minimal rate as long as that is larger, otherwise the rate whose square times the steps is the square of the maximal rate times the warm-up steps |
| `Scheduler.WsdStable` | Megatron-LM/megatron/core/optimizer_param_scheduler.py:165-168 | warm-up, stable, decay keeps the maximal rate until its last steps |
| `Scheduler.WsdLine` | Megatron-LM/megatron/core/optimizer_param_scheduler.py:169-173 | and then, in its linear style, lies on the line down to the minimal rate |
| `Scheduler.WsdCurves` | Megatron-LM/megatron/core/optimizer_param_scheduler.py:169-180 | its other styles each follow their own curve, and an unknown style is an error |
| `Scheduler.DecayFalls` | Megatron-LM/megatron/core/optimizer_param_scheduler.py:138-185 | after warm-up the rate never rises and stays between the minimal and the maximal rate, for every style, given falling cosine and exponential curves |
| `Scheduler.OptimizerParamScheduler.Step` | Megatron-LM/megatron/core/optimizer_param_scheduler.py:187-198 | counts the steps, fails exactly when a rate is undefined, and otherwise updates every group |
| `Scheduler.GroupSet` | Megatron-LM/megatron/core/optimizer_param_scheduler.py:187-198 | an update sets the learning rate of a group to the rate between its own bounds, or the default ones, times its multiplier, its weight decay likewise, and nothing else |
| `Scheduler.CheckAndSet` | Megatron-LM/megatron/core/optimizer_param_scheduler.py:216-237 | the own value under override, the saved value otherwise, and an error exactly on a required match that fails |
| `Scheduler.OptimizerParamScheduler.LoadStateDict` | Megatron-LM/megatron/core/optimizer_param_scheduler.py:239-302 | loads the rate fields, adds the saved steps through a step, and only then loads the weight-decay fields; fails exactly on a mismatch or an undefined rate |
| `Scheduler.ResumeFollows` | Megatron-LM/megatron/core/optimizer_param_scheduler.py:200-302 | after any run, a fresh scheduler of the same configuration that loads the checkpoint equals the original, so it follows it at every later step |
| `Scheduler.LoadRestoresIff` | Megatron-LM/megatron/core/optimizer_param_scheduler.py:239-302 | a scheduler that loads a checkpoint equals the original, parameter groups included, if and only if it has taken no steps of its own, the fields that are not restored agree, and its own values give every group with a nonzero multiplier the weight decay of the original at that step |
| `Scheduler.StaleWeightDecay` | Megatron-LM/megatron/core/optimizer_param_scheduler.py:284-302 | a load that restores configuration and step count and leaves a group with weight decay 0 where the original has 1 |
| `Scheduler.LoadAddsSteps` | Megatron-LM/megatron/core/optimizer_param_scheduler.py:284-288 | a scheduler with three steps that loads a checkpoint of four stands at seven |
| `Scheduler.RunTrajectory` | Megatron-LM/megatron/core/optimizer_param_scheduler.py:187-198 | over every run of steps each group's rate rises while warm-up lasts, never rises after it and stays within its bounds, and its weight decay never falls |
| `MicroBatches.RoundIsLargest` | Megatron-LM/megatron/core/num_microbatches_calculator.py:261-263 | rounding gives the largest multiple of the divisor that is not larger |
| `MicroBatches.RunningIff` | Megatron-LM/megatron/core/num_microbatches_calculator.py:488-508 | the microbatches make up the running batch if and only if it was rounded or divides evenly, and there is at least one if and only if the batch is large enough |
| `MicroBatches.BatchFinalIff` | Megatron-LM/megatron/core/num_microbatches_calculator.py:453-461 | the batch size stays between start and final size, so the bound assertion never fires, and is the final size if and only if ramp-up has ended |
| `MicroBatches.IncrementDueIff` | Megatron-LM/megatron/core/num_microbatches_calculator.py:453-461 | during ramp-up the k-th increment is due if and only if the share k of the samples is consumed, and the batch size is the start size and whole increments |
| `MicroBatches.BatchGrows` | Megatron-LM/megatron/core/num_microbatches_calculator.py:453-461 | the batch size is monotone in the samples consumed |
| `MicroBatches.RampupBatchsizeNumMicroBatchesCalculator.Update` | Megatron-LM/megatron/core/num_microbatches_calculator.py:441-508 | the sizes after an update depend only on the samples consumed; it fails exactly when a requested consistency check fails |
| `MicroBatches.NewRampup` | Megatron-LM/megatron/core/num_microbatches_calculator.py:387-436 | exactly the arguments that pass every assertion and divide by no zero |
| `MicroBatches.ConstantSizes` | Megatron-LM/megatron/core/num_microbatches_calculator.py:315-354 | exactly the arguments accepted for a constant batch size, at least one microbatch, and microbatches that make up the running batch |
| `MicroBatches.MicroBatchesMakeBatch` | Megatron-LM/megatron/core/num_microbatches_calculator.py:441-508 | after an update the microbatches make up the running batch if and only if rounding is on or the batch divides evenly |
| `MaskRuns.BoundariesOfRuns` | Megatron-LM/examples/multimodal/train.py:177-187 | the start list and the end list computed from the differences are the starts and ends of the stretches read from left to right |
| `MaskRuns.MaskRunsExact` | Megatron-LM/examples/multimodal/train.py:168-190 | both lists have equal length and pair up into maximal nonzero stretches, in order, separated by zeros and covering every nonzero entry |
| `MaskRuns.MaskRunsComplete` | Megatron-LM/examples/multimodal/train.py:168-190 | every maximal nonzero stretch is among them |
| `FilePartition.CountIff` | Megatron-LM/tools/preprocess_data.py:289-295 | counting fails exactly when the first file is empty; otherwise the total is the number of lines plus, for every empty file, the size of the last file with lines before it, so it is right if and only if no file is empty |
| `FilePartition.CountLines` | Megatron-LM/tools/preprocess_data.py:289-295 | the counting loop, with the index left over from the file before an empty one |
| `FilePartition.WriteLines` | Megatron-LM/tools/preprocess_data.py:316-334 | in order, no line is written past the last partition if and only if the lines fit; every partition holds exactly the lines of its slot |
| `FilePartition.SequentialExact` | Megatron-LM/tools/preprocess_data.py:325-330 | in order, the partitions concatenate to the input and none exceeds the partition size |
| `FilePartition.BalancedIff` | Megatron-LM/tools/preprocess_data.py:289-296 | the partitions are as even as the line count allows if and only if counting an empty file again did not change the partition size or all lines fit in one share |
| `FilePartition.EmptyFileUnbalances` | Megatron-LM/tools/preprocess_data.py:289-296 | a file of two lines and an empty file: both lines fall to the first of two partitions |
| `FilePartition.RoundRobinExact` | Megatron-LM/tools/preprocess_data.py:331-332 | in turn, partition i holds exactly the lines congruent to i, in order |
| `FilePartition.PartitionFiles` | Megatron-LM/tools/preprocess_data.py:286-334 | fails exactly in order mode with an empty first file; in order mode the partitions concatenate to the input, hold the lines of their stretch, and are as even as the line count allows if and only if the lines counted again do not change the stretch or one share takes all lines; in turn every partition holds its lines |

## Left out

- Process-group creation, NCCL, UCC and SHARP options, gloo variants and the getters and setters of parallel_state.py: foreign calls or one-line members.
- Orders with repeated tokens or upper-case letters in `RankGenerator`: the model starts from distinct lower-case tokens.
- HyperCommGrid.NewGrid: sizes are natural numbers; a negative size, which the source does not reject, is not part of this model.
- HyperCommGrid.Grid.CreatePg: for a grid with distinct names free of the key separator and no zero size; other grids can be made, and nothing is stated about creating groups on them.
- Context-parallel padding in the sequence length, the tokenizer, image and video handling and tensor batching of dataset_helpers.py.
- FirstFit.ThreeHalves: for sizes that are not negative; sizes are token counts.
- JSON loading, span conversion, child spans, links and events of convert_otel_2_perfetto.py; a child span carries the line of its parent.
- SpanLayout.LinesOptimal: for spans of one process in start order; across requests the order of placement can differ from it, and more lines than necessary are then possible (`AcrossRequestsNotOptimal`). The source does not promise the fewest lines.
- SpanPlaces.SpanPlacedRight: for processes without spans that end where they start; such a span skips the check.
- Spurious wake-ups of the condition variable, and the order in which the threads are started.
- A custom CPU blacklist, which filters the last run only; core ids are natural numbers, so the default blacklist removes nothing.
- Reading the NUMA directories, environment parsing, subprocesses and ssh of the launcher.
- CoreList.ParseNumRange: digits and white space are those of ASCII; the other Unicode digits and spaces that Python's `int` accepts are errors here.
- The names older checkpoints use for their fields, which only rename what is loaded.
- Scheduler.DecayFalls: the cosine and the exponential curve are assumed to fall; they are not computed. Floating-point rounding is not modelled.
- Scheduler.OptimizerParamScheduler.LoadStateDict: after a failed load nothing is stated about the fields already replaced.
- MicroBatches.BatchFinalIff: the quotient of samples is exact; the floating-point quotient of the source can differ by a rounding.
- Logging, and the base class and factory of the microbatch calculators.
- The loss functions around the mask stretches in train.py.
- Compressed input files, sentence splitting and the encoder of preprocess_data.py.
- Model builders, pretraining scripts, low-precision utilities, CUDA graphs, timers, inference servers and build scripts: plumbing or thin wrappers.
