# NML: verified model of the attention, routing, loading, quantisation and graph cores

NML compiles tensor programs and runs them. Its cores are places where a fast, bounded or
concurrent form has to equal a simple one. This project models those cores in Dafny and proves
the equalities, over all inputs, all runs and all interleavings. Where the code does not meet
what its comments or callers expect, the exact condition under which it does is proved instead.

Floats are `real`; the exponential is a parameter that is positive, monotone and turns sums into
products (`Exponentials.IsExponential`). Fixed integer widths appear where the code checks them.

## Components

**Attention** (`Softmax`, `OnlineSoftmax`, `OrdinaryAttention`, `PagedAttention`, `PagedCache`,
`PagedAppend`, `CachedAttention`, `FlashDispatch`). The paged loop carries a counter, a running
maximum, a running sum and an accumulator, and rescales on every page. For every table, length,
position, mask and sink it equals dense two-pass softmax over the keys below the length. The cache
refines a logical sequence over any run of updates, in any scatter order, wherever the page read is
backed during the run; inactive rows and unused table entries may name the same page. The two
results compose, and the append kernel that writes keys and values in one launch is the pair of
scatters. The vendor flash kernels are a stated contract (`FlashDispatch.KernelRow`): plain softmax
over the keys the adapter's own mask admits, with their log-sum-exp.

**Accelerated attention** (`TritonAttention`, `TritonRows`, `PagedDispatch`). The tile loop starts its
maxima at minus infinity, the split form runs segments of tiles apart and merges them; both are dense
softmax over the keys the tiles show, whatever the unwritten segment buffers hold. Which keys those
are, and what the emitted choice between this kernel and the vendor's returns, is compared with the
portable loop, with the condition read off the table, lengths, positions and options of the call.

**Mixture of experts** (`MoeSchedule`, `MoeExecution`, `MoeOperators`, `MoeLayouts`, `MoeDecode`,
`RoutingAlgebra`, `ExpertMesh`, `ExpertParallel`, `Sums`). The block-aligned bucket sort is correct,
stable and within capacity; grouped execution of its schedule is the dense graph, for each served token
and, through the operator's final select, for every token under a mask; the replica groups of a mesh of
any rank partition the devices and their partial sums add up to the dense result. A grouped kernel is a
contract: it stores one row for each lane it reads, zero outside the local expert range, and leaves all
other rows as they were. The matrix kernels read every scheduled lane; the NVFP4 kernels for at most
eight tokens read only the first lane of every block (`MoeDecode.Heads`).

**Checkpoint loader** (`Staging`, `Loader`, `StagingPeak`, `LoadPlan`). Reader threads, an atomic
counter, a rendezvous channel and one uploading thread are a state machine over events; reads and
uploads may fail anywhere.

**NVFP4** (`Nearest`, `E4m3fn`, `E2m1`, `Nvfp4Row`, `Nvfp4Quantize`, `Nvfp4Convert`, `Nvfp4Weight`,
`Nvfp4Simd`). Two independent encoders exist, a bit-assembling one in the converter and a search in
the runtime; they are the same function, and it is rounding to nearest with ties to even (section
4.3.1 of IEEE 754-2019) over the formats of section 5.3 of the OCP Microscaling Formats (MX)
Specification v1.0. Byte registers model the vector instructions bit for bit.

**Graph builder and graph algorithms** (`ProgramBuilder`, `Patch1d`, `Ordering`, `Sampling`,
`AttentionLaunch`). Builder invariants over any sequence of calls, one scatter for many patches,
a total sort order, an order-independent arg-max, sampling filters, and the launch grid together
with the binary search with which each program finds its sequence.

## Where the code falls short of its promise

- `random_bits` never asks which builder issued its state. A state from another builder that names
  a value this builder does not have is accepted, and lowering then meets an undefined operand
  (`ProgramBuilder.ForeignState`); the exact condition is `ProgramBuilder.RandomBitsExactly`.
- The emitted input aliases invert the output aliases exactly when no aliased tensor is listed as
  an output twice (`ProgramBuilder.AliasesInvertExactly`).
- The loader's comment bounds live host components by the worker count. One more can be live, the
  slice the main thread is uploading; `StagingPeak.LiveCountExactly` and `StagingPeak.EstimateExactly`
  say when the count and the byte estimate hold.
- The portable graph of `moe_gated` splits gate and up rows into halves while the grouped kernel reads
  them interleaved. For any fixed activation that is nonzero at one, the two operators agree on a token
  for all weights and normalised routings exactly when there is at most one channel, no hidden width, or no
  route naming an expert (`MoeLayouts.GatedGroupedExactly`); they agree on de-interleaved weights
  (`MoeLayouts.GroupedEqualsDeinterleaved`). The clamped operator reads interleaved rows on both sides.
- With at most eight tokens the NVFP4 kernels read only the first lane of every block. Past the sparse
  path that loses every later assignment of a shared expert: with all tokens active the result is right
  exactly when there are no more routes than experts (`MoeDecode.UnmaskedDecodeExactly`, in general
  `MoeDecode.DecodeExactly`), and three tokens of two routes over four experts already go wrong
  (`MoeDecode.DecodeWitness`).
- The paged FA2 adapter drops the upper bound of a symmetric window for queries short of the
  capacity (`FlashDispatch.DroppedBoundExample`, condition `FlashDispatch.AdapterMaskIsAuthored`). The
  vendor branch then differs from the page loop on some input of every such geometry the compiler and
  the adapter accept (`PagedDispatch.FlashExactly`).
- The causal test of the tile loop does not ask whether a lane was loaded. A query position at or past
  the length admits the zero lanes that fill the last tile, and they dilute the row: one query just past
  one key gets half of what the portable graph gives (`TritonRows.PhantomWitness`). For a given table,
  lengths, positions and options the two agree on all queries, caches and sinks exactly if the row has no
  such lane or sees no key (`TritonRows.TritonExactly`).

## Model

| member | source | states |
|---|---|---|
| Softmax.SoftmaxShiftInvariant | crates/nml-ir/src/ordinary_attention.rs:485-580 | masked softmax with or without a sink does not depend on the reference point subtracted from the scores |
| Softmax.TwoPassIsSoftmax | crates/nml-ir/src/ordinary_attention.rs:279-620 | the dense graph (maximum, shifted weights, sink, normalise, contract) is that softmax at any reference point |
| Softmax.TwoPassIsMean | crates/nml-ir/src/ordinary_attention.rs:485-620 | each output component is the mean of the shown values weighted by the plain exponentials of their scores, a sink adding to the divisor alone |
| OrdinaryAttention.DotUnit | crates/nml-ir/src/ordinary_attention.rs:352-355 | a unit query scores exactly one component of the key |
| OrdinaryAttention.DotLinear | crates/nml-ir/src/ordinary_attention.rs:352-355 | scores are additive and homogeneous in the query, and by commutation in the key |
| OrdinaryAttention.UnitScore | crates/nml-ir/src/ordinary_attention.rs:279-380 | the score a dense row gives a unit query is that component of its head group's key, times the scale |
| OrdinaryAttention.VisibleExactly | crates/nml-ir/src/ordinary_attention.rs:409-480 | a window admits exactly the positions less than its extent away on both sides, a causal mask none after the query |
| OrdinaryAttention.LowerIsMean | crates/nml-ir/src/ordinary_attention.rs:279-620 | a dense output component is that mean over the row's shown keys, with the head's own sink in the divisor |
| OnlineSoftmax.FoldOnline | crates/nml-ir/src/paged_attention.rs:1351-1471 | one page keeps the loop invariant: sum and accumulator are the prefix sums of the weights and weighted values at the current maximum |
| OnlineSoftmax.AfterOnline | crates/nml-ir/src/paged_attention.rs:864-992 | the invariant holds after any number of pages |
| OnlineSoftmax.FinishIsTwoPass | crates/nml-ir/src/paged_attention.rs:941-992 | dividing a loop state gives the dense result over the visible keys; masked tails contribute nothing |
| OnlineSoftmax.AfterPeaked | crates/nml-ir/src/paged_attention.rs:1351-1413 | the running maximum bounds every score seen and never decreases, so no exponent is positive |
| OnlineSoftmax.RunningSumAtLeastOne | crates/nml-ir/src/paged_attention.rs:941-980 | once a sink or a visible key was seen the running sum is at least one, so the final division is safe |
| PagedAttention.LoopResult | crates/nml-ir/src/paged_attention.rs:764-992 | the finished loop of a lane equals dense attention over the logical keys below the length |
| PagedAttention.StaleStateIrrelevant | crates/nml-ir/src/paged_attention.rs:1083-1170 | table entries and slots at or past the length, and pages not addressed, never reach the output |
| PagedAttention.UnitPageScore | crates/nml-ir/src/paged_attention.rs:1184 | the score a page gives a unit query is that component of the cached key of its head, times the scale |
| PagedAttention.LowerLane | crates/nml-ir/src/paged_attention.rs:1029-1471 | the emitted while loop, run page by page and divided, returns the dense row |
| PagedCache.Cache.Update | crates/nml-ir/src/lib.rs:4612-4653 | one call leaves the scatter of its updates, landing in any order, in the cache |
| PagedCache.MaskedUpdate | crates/nml-ir/src/lib.rs:4612-4624 | an update of an inactive row, past its row's length or masked out leaves every page as it was |
| PagedCache.AdmittedUpdate | crates/nml-ir/src/lib.rs:4612-4652 | every other update at a position of its table writes its row in the one cell the table names |
| PagedCache.SparedCell | crates/nml-ir/src/lib.rs:4612-4652 | over a whole call in any order, a cell that no admitted update addresses keeps its row |
| PagedCache.AddressedCell | crates/nml-ir/src/lib.rs:4612-4652 | a cell that one admitted update addresses holds that update's row |
| PagedCache.CallRefinesLogical | crates/nml-ir/src/lib.rs:4539-4653 | reading back through the table after a call gives the logical sequence with exactly the enabled positions overwritten, for every scatter order, wherever the page read backs its logical page |
| PagedCache.CallRefinesExactly | crates/nml-ir/src/lib.rs:4612-4652 | a page refines a logical page for all contents, rows and orders if and only if the masks, tables and positions of the call make it back that page: its own updates resolve to it and no other update lands in it |
| PagedCache.UnsharedBacks | crates/nml-ir/src/lib.rs:4526-4536 | what a host can check suffices: enabled positions and page ids in range, and no enabled update of another logical page with the same table entry |
| PagedCache.InactiveRowMayShare | crates/nml/tests/attention_contract.rs:144-180 | tables in which an inactive row names the page an active row appends to are covered |
| PagedCache.UntargetedCell | crates/nml-ir/src/lib.rs:4612-4652 | masked, over-length and inactive updates change no cell |
| PagedCache.RunRefinesLogical | crates/nml-ir/src/lib.rs:4509-4653 | the refinement over any run of calls during which the page backs the logical page; the rest of the tables may change |
| CachedAttention.AttentionAfterRuns | crates/nml-ir/src/paged_attention.rs:1083-1170 | paged attention after any runs of key and value updates that back the row's pages equals dense attention over the logical sequences |
| PagedAppend.AppendIsScatter | crates/nml-kernel-triton/src/paged_cache.rs:52-140 | the flat memory after the append launch, its programs in any order, is the scattered cache |
| PagedAppend.LaunchSpares | crates/nml-kernel-triton/src/paged_cache.rs:52-140 | after the launch a cell that no admitted update addresses holds what it held |
| PagedAppend.LaunchAddresses | crates/nml-kernel-triton/src/paged_cache.rs:52-140 | and the cell an admitted update addresses holds its elements |
| PagedAppend.PairedAppendIsScatters | crates/nml-ir/src/lib.rs:4655-4713 | one launch over keys and values is the pair of scatters of the portable update, for validated calls whose enabled updates address distinct cells |
| FlashDispatch.SinkEpilogue | crates/nml-ir/src/attention_sink.rs:15-84 | scaling a plain output by the logistic of lse minus sink is dense attention with the sink in the normaliser, for rows with and without visible keys |
| FlashDispatch.AdapterMaskIsAuthored | crates/nml-kernel-flash-attention/src/adapter.cu:363-382 | the adapter's mask is the bottom-right aligned authored mask on every pair exactly if it drops no upper bound |
| FlashDispatch.DroppedBoundExample | crates/nml-kernel-flash-attention/src/adapter.cu:363-382 | one page of 256 positions, a window of 257 and 258 queries over length one: the paged adapter admits a key the authored mask hides |
| FlashDispatch.KernelBranch | crates/nml-ir/src/ordinary_attention.rs:141-202 | under aligned positions the corrected kernel output equals the portable dense row |
| FlashDispatch.DenseDispatchIsPortable | crates/nml-ir/src/ordinary_attention.rs:101-139 | both branches of the emitted case agree, whatever the runtime position predicate says |
| FlashDispatch.DenseBranchTaken | crates/nml-ir/src/ordinary_attention.rs:101-139 | the portable branch runs exactly for masked calls in which some query or key position is off its canonical place |
| FlashDispatch.PagedKernelBranch | crates/nml-ir/src/paged_attention.rs:547-690 | the paged vendor branch equals the paged loop under the canonical-position predicate when the adapter drops no bound |
| TritonAttention.TileLoop | crates/nml-kernel-triton/src/unified_attention.rs:460-592 | folding tiles from minus infinity or the sink, all-masked tiles included, gives dense attention over the keys the tiles show |
| TritonAttention.TilesAreDense | crates/nml-kernel-triton/src/unified_attention.rs:423-592 | the same for the folded state divided by its sum |
| TritonAttention.ReduceIsDense | crates/nml-kernel-triton/src/unified_attention.rs:755-915 | merging the maxima, sums and accumulators of any segments, empty ones included, with the sink applied once, is dense attention over all their keys |
| TritonAttention.MaskIsGuard | crates/nml-kernel-triton/src/unified_attention.rs:260-278 | the segment count the reduction computes admits exactly the segments for which a producer ran, an empty sequence included |
| TritonAttention.SplitEqualsWhole | crates/nml-kernel-triton/src/unified_attention.rs:441-455 | the share of tiles computed from the length deals every tile to one produced segment, so split and unsplit execution agree for any segment count and whatever unwritten segment buffers hold |
| TritonRows.ShownExactly | crates/nml-kernel-triton/src/unified_attention.rs:528-568 | a row is shown the keys the portable graph shows it if and only if it has no phantom, which no position below the length has: an unloaded lane of the last tile at or below its position and inside its window |
| TritonRows.TritonComputes | crates/nml-kernel-triton/src/unified_attention.rs:430-592 | both launch forms compute, for a row with allocated pages, dense attention over the loaded keys it is shown and its phantoms |
| TritonRows.TritonExactly | crates/nml-kernel-triton/src/unified_attention.rs:528-540 | with table, lengths, positions and options given, the tile loop equals the portable loop for all queries, caches and sinks if and only if the row has no phantom or sees no key |
| TritonRows.PhantomWitness | crates/nml-kernel-triton/src/unified_attention.rs:528-540 | one causal query just past a sequence of one key: the tile loop gives one half where the portable loop gives one |
| PagedDispatch.DispatchExactly | crates/nml-ir/src/paged_attention.rs:499-545 | when the adapter drops no bound, the emitted case equals the portable loop for all queries, caches and sinks if and only if it takes the vendor branch, or the row has no phantom, or it sees no key |
| PagedDispatch.BranchTaken | crates/nml-ir/src/paged_attention.rs:499-545 | the tile loop runs exactly for masked calls with some position not aligned to its row's length |
| PagedDispatch.FlashExactly | crates/nml-ir/src/attention_backend.rs:41-73 | for every geometry the compiler sends to a paged vendor kernel and its adapter accepts, the branch gives the portable result on all inputs if and only if the adapter drops no bound |
| MoeSchedule.AssignmentPlan | crates/nml-ir/src/lib.rs:5644-5779 | refused exactly if the schedule cannot be addressed; otherwise a stable, consistent, complete plan on either path |
| MoeSchedule.DensePlan | crates/nml-ir/src/lib.rs:5723-5771 | every assignment with an expert in range has one lane, ascending within its expert; every lane's block carries its expert; others occupy none |
| MoeSchedule.CapacitySuffices | crates/nml-ir/src/lib.rs:5659-5675 | active blocks and padded positions never exceed the capacity computed from the nonempty-expert bound |
| MoeSchedule.CapacityIsTight | crates/nml-ir/src/lib.rs:5659-5675 | some routing needs all of that capacity but at most one block, and all of it when the surplus over one assignment for each expert fills whole blocks |
| MoeSchedule.IntermediatesFitI32 | crates/nml-ir/src/lib.rs:5676-5683 | every prefix, count and lane index the graph computes in 32 bits stays in range |
| MoeSchedule.SparseSchedule | crates/nml-ir/src/lib.rs:5691-5721 | padding yields one block per assignment, expert -1 included, in order |
| MoeSchedule.FirstLanesSuffice | crates/nml-kernel-triton/src/nvfp4.rs:948-1000 | every scheduled assignment is the first of its block exactly on the sparse path, when no expert is shared, or with blocks of one |
| MoeExecution.GroupedIsRouteSum | crates/nml-ir/src/moe_backend.rs:72-193 | gate/up and down kernels over scheduled lanes, reshaped and reduced per token, give the sum over routes of weighted expert outputs |
| MoeExecution.GroupedEqualsDense | crates/nml-ir/src/lib.rs:5407-5478 | for a served token that sum is the clamped dense graph, which runs every expert and weights it by summed one-hot routing, whatever the buffer held |
| MoeExecution.GroupedEqualsDenseExactly | crates/nml-ir/src/nvfp4_backend.rs:486-509 | before the operator's final select, a token's sum equals the dense graph for every buffer content if and only if all its routes are served |
| MoeExecution.UnscheduledRouteLeaks | crates/nml-ir/src/nvfp4_backend.rs:486-509 | before that select, changing one element of an unscheduled row changes its token's sum by the same amount |
| MoeExecution.UnitChannel | crates/nml-ir/src/lib.rs:5422-5433 | a unit input makes a channel the activation of its gate and up weights plus their biases, at even and odd rows, or at rows half the axis apart in the gated layout |
| MoeExecution.BiasRemains | crates/nml-ir/src/lib.rs:5422-5450 | a zero input leaves a projection its bias, and zero channels leave an expert its output bias |
| MoeExecution.OneChannel | crates/nml-ir/src/lib.rs:5447-5450 | an expert with one live channel gives that channel times its down weight, plus the bias |
| MoeExecution.AffineLinear | crates/nml-ir/src/lib.rs:5422-5450 | both projections of an expert are linear in what they contract, bias aside |
| MoeExecution.OneRouteIsDense | crates/nml-ir/src/lib.rs:5452-5478 | with one route the dense graph gives its expert's output times its weight, or zero when it names no expert |
| MoeOperators.MaskedOperator | crates/nml-ir/src/lib.rs:1426-1497 | with masked tokens' routes set to expert -1, weights to zero and outputs selected to zero, the grouped operator is the dense operator for every token and every buffer content: masked tokens zero, others what their own routing gives |
| MoeOperators.MaskedDenseIsPromised | crates/nml-ir/src/lib.rs:1279-1284 | the dense operator under the mask gives an exact zero for masked tokens and leaves active ones as without a mask |
| MoeLayouts.GatedGroupedExactly | crates/nml-ir/src/lib.rs:5573-5637 | for an activation nonzero at one, the grouped operator equals the halves graph on a served token for all weights, normalised routings and buffers if and only if there is at most one channel, no hidden width, or no route naming an expert |
| MoeLayouts.GroupedEqualsDeinterleaved | crates/nml-ir/src/moe_backend.rs:72-193 | the grouped operator is the halves graph on de-interleaved weights |
| MoeLayouts.HalvesAgreeExactly | crates/nml-ir/src/lib.rs:5577-5585 | for a fixed activation nonzero at one, half-split and interleaved readings of one expert agree for all weights if and only if there is at most one channel |
| MoeLayouts.HalvesOfDeinterleaved | crates/nml-kernel-triton/src/moe.rs:66-330 | half-split reading of de-interleaved weights is interleaved reading of the originals |
| MoeDecode.DecodeExactly | crates/nml-kernel-triton/src/nvfp4.rs:842-853 | with first-lane kernels the masked operator gives the promised result for every layer, buffer and token if and only if the schedule is sparse, no expert is shared, or blocks hold one lane |
| MoeDecode.UnmaskedDecodeExactly | crates/nml-kernel-triton/src/nvfp4.rs:948-1000 | with all tokens active that is if and only if there are no more routes than experts |
| MoeDecode.DecodeWitness | crates/nml-kernel-triton/src/nvfp4.rs:948-1000 | three tokens, two routes, four experts, blocks of sixteen: a token's output follows an element no kernel stored |
| RoutingAlgebra.DenseIsRouteSum | crates/nml-ir/src/lib.rs:5573-5637 | weighting every expert by its summed one-hot routing equals summing over routes |
| RoutingAlgebra.ShardsAreDense | crates/nml-ir/src/lib.rs:9704-9713 | partial sums of consecutive expert ranges add up to the sum over all experts |
| ExpertMesh.ExpertCoordinateIsAxis | crates/nml-ir/src/lib.rs:9660-9678 | dividing the partition id by the later axes and taking the remainder recovers the expert coordinate on a mesh of any rank |
| ExpertMesh.ExpertReplicaGroups | crates/nml-ir/src/lib.rs:9771-9799 | the loop lists the group of every device with expert coordinate zero, once each, or reports a mesh past 64 bits |
| ExpertMesh.GroupsPartition | crates/nml-ir/src/lib.rs:9771-9799 | every device lies in exactly one group, at its expert coordinate, with all other coordinates shared |
| ExpertMesh.MemberCoordinates | crates/nml-ir/src/lib.rs:9771-9799 | member c of a group has expert coordinate c and the root's other coordinates |
| ExpertMesh.GroupCount | crates/nml-ir/src/lib.rs:9771-9799 | there are exactly total divided by partitions groups |
| ExpertParallel.OffsetOfMember | crates/nml-ir/src/lib.rs:9660-9690 | the offset a member computes is its coordinate times the local expert count |
| ExpertParallel.GroupTiles | crates/nml-ir/src/lib.rs:9660-9713 | the offsets of a group tile all experts once |
| ExpertParallel.AllReduceEqualsDense | crates/nml-ir/src/lib.rs:9596-9713 | summing the grouped partial results of one replica group gives the dense graph for every served token |
| ExpertParallel.MaskedAllReduce | crates/nml-ir/src/lib.rs:9596-9713 | under a token mask that sum, after the final select, is the promised result for every token and every buffer of every device |
| Loader.AlwaysInvariant | crates/nml-checkpoint/src/lib.rs:771-826 | in every interleaving records in readers, uploader and transaction are disjoint, none fetched is lost before a failure, accounting matches |
| Loader.RunsAreBounded | crates/nml-checkpoint/src/lib.rs:784-825 | no run has more than four events per record plus one per worker plus one |
| Loader.Progress | crates/nml-checkpoint/src/lib.rs:789-805 | every unfinished state has an enabled event: no deadlock, also after a failed read or upload |
| Loader.NeverDisconnected | crates/nml-checkpoint/src/lib.rs:803-805 | the receiver never finds all senders gone |
| Loader.SuccessIsExact | crates/nml-checkpoint/src/lib.rs:802-830 | success means every record was read, allocated, uploaded and inserted exactly once, and no read or upload of the run failed |
| Loader.FailureIsReported | crates/nml-checkpoint/src/lib.rs:789-825 | after a failed read or upload the load has failed, or the failed read is still on its way to the receiver; it never succeeds |
| Loader.NoFailureInvented | crates/nml-checkpoint/src/lib.rs:789-825 | a run without a failed read or upload never reaches failure |
| Loader.OutcomeIsExact | crates/nml-checkpoint/src/lib.rs:789-825 | a finished run succeeded if and only if none of its reads and uploads failed |
| Loader.MemoryBound | crates/nml-checkpoint/src/lib.rs:774-777 | bytes held by readers stay within the worker-count largest records, live bytes within one more |
| Staging.PeakIsBest | crates/nml-checkpoint/src/lib.rs:720-730 | sort-and-take computes the largest total of that many distinct records |
| StagingPeak.EstimateExactly | crates/nml-checkpoint/src/lib.rs:704-741 | the byte estimate bounds live bytes in every run if and only if no two adjacent records plus the best earlier ones exceed it |
| StagingPeak.ExceedsEstimate | crates/nml-checkpoint/src/lib.rs:784-811 | a run that holds exactly such a choice live |
| StagingPeak.LiveCountExactly | crates/nml-checkpoint/src/lib.rs:774-777 | the worker count bounds live records in every run if and only if there are no more records than workers |
| LoadPlan.BuildPlan | crates/nml-checkpoint/src/lib.rs:638-697 | the visit succeeds exactly if names, shardings, shared artifacts and stored shapes agree, and then plans each artifact once; otherwise its error names the first fault of the first parameter that cannot be planned |
| LoadPlan.CompatibleExactly | crates/nml-checkpoint/src/lib.rs:215-220 | stored and declared shapes are compatible if and only if they are equal up to axis tags and partitions |
| LoadPlan.LoadDirectly | crates/nml-checkpoint/src/lib.rs:744-770 | the sequential path inserts every record once, or stops at the first failed upload owning and accounting for exactly the records before it |
| LoadPlan.ConcurrentEqualsDirect | crates/nml-checkpoint/src/lib.rs:771-830 | a successful concurrent load owns the same buffers and accounts the same totals as the sequential path |
| LoadPlan.TraversalFindsEverything | crates/nml-checkpoint/src/lib.rs:835-852 | after success every component of every visited parameter is in the transaction |
| Nearest.NearestUnique | crates/nml-parameter/src/lib.rs:436-444 | at most one code is nearest with ties to even |
| Nearest.SearchStep | crates/nml-parameter/src/lib.rs:469-478 | one comparison of either search keeps the nearest code of those tried |
| E4m3fn.EncodeIsNearest | tools/nvfp4/convert.py:413-425 | the bit-assembling encoder yields the nearest legal scale, ties to even, through subnormals, binades and mantissa carry |
| E4m3fn.RoundTrip | tools/nvfp4/convert.py:413-436 | encoding a decoded code returns it, for every code up to 0x7E |
| E4m3fn.EncodeMonotone | tools/nvfp4/convert.py:413-425 | encoding is monotone over all reals |
| E4m3fn.EncodeError | tools/nvfp4/convert.py:413-425 | a scale moves by at most half the smallest step or a sixteenth of the result |
| E4m3fn.SearchEncode | crates/nml-parameter/src/lib.rs:463-480 | the runtime's search over all codes returns the converter's code for every nonnegative real and refuses negative ones |
| E2m1.ThresholdsAreNearest | tools/nvfp4/convert.py:387-397 | thresholds with the repair at the three odd boundaries round every magnitude to nearest, ties to even, saturating |
| E2m1.SearchCode | crates/nml-parameter/src/lib.rs:428-446 | the runtime's search returns the same signed code |
| E2m1.CodeError | tools/nvfp4/convert.py:387-398 | rounding loses at most one below the largest magnitude and the excess above it |
| Nvfp4Row.PackThenNibble | tools/nvfp4/convert.py:398-402 | every code survives packing at even and odd widths |
| Nvfp4Row.QuantizedIsAccepted | crates/nml-kernel-nvfp4/src/lib.rs:157-176 | what the quantiser writes has legal scales, zero padding and zero codes under zero scales |
| Nvfp4Row.ScaleIsNearest | crates/nml-parameter/src/lib.rs:501-538 | the scale of a block is the code nearest, ties to even, to a sixth of the block's largest magnitude over the tensor-wide scale |
| Nvfp4Row.CodeIsNearest | crates/nml-parameter/src/lib.rs:501-538 | under a positive scale an element's code is the magnitude nearest to the element over the product of the two scales, with its sign; under a zero scale it is zero |
| Nvfp4Row.ColumnsAreFormula | crates/nml-parameter/src/lib.rs:565-587 | each decoded column is the value of its nibble, low for even columns, times the product of block scale and tensor-wide scale |
| Nvfp4Row.QuantizedError | tools/nvfp4/convert.py:380-384 | a decoded element lies within block scale times global scale of its source or within 3/512 of the global scale, saturated and zero-scale blocks included |
| Nvfp4Quantize.QuantizeRow | crates/nml-parameter/src/lib.rs:501-538 | the in-place nibble writer computes the row specification, or refuses a scale that is not positive |
| Nvfp4Quantize.DequantizeRow | crates/nml-parameter/src/lib.rs:540-587 | decodes exactly the accepted rows; element `j` is the value of its nibble times the product of block scale and global scale |
| Nvfp4Convert.TensorRowIsQuantized | tools/nvfp4/convert.py:376-402 | the converter's padded row program writes what the runtime's row quantiser writes |
| Nvfp4Convert.QuantizeTensor | tools/nvfp4/convert.py:357-410 | for every chunk size the result is the same, and the converter's own validation never fails |
| Nvfp4Convert.PassesExactly | tools/nvfp4/convert.py:439-453 | the converter's check of a written row passes exactly if its extents, padding and scale bytes are what the decoder demands |
| Nvfp4Convert.TensorError | tools/nvfp4/convert.py:364-404 | every converted row decodes within the error bound of its source row |
| Nvfp4Convert.LargestSurvives | tools/nvfp4/convert.py:369-371 | the elements of largest magnitude in a tensor decode to exactly themselves |
| Nvfp4Weight.LoadWeight | crates/nml-kernel-nvfp4/src/lib.rs:110-187 | a flat weight loads exactly if its extents, padding, scales and zero-scale blocks are legal |
| Nvfp4Weight.WeightValueIsFormula | crates/nml-kernel-nvfp4/src/lib.rs:193-200 | the scalar element of a flat weight is its nibble's value times the product of block scale and factor |
| Nvfp4Weight.PublishedIsFaithful | tools/nvfp4/convert.py:406-410 | the kernels load every published tensor and each element they compute is within the promised distance, stated in block scale times factor, of its source |
| Nvfp4Simd.CrossedBitsAreMasked | crates/nml-kernel-nvfp4/src/x86.rs:40-42 | the mask removes exactly the bits a sixteen-bit shift carried in from the neighbouring byte |
| Nvfp4Simd.InterleavedIsNibble | crates/nml-kernel-nvfp4/src/x86.rs:40-43 | interleaving restores column order |
| Nvfp4Simd.CodebookIsValue | crates/nml-kernel-nvfp4/src/x86.rs:11-13 | the codebook is the scalar decoder and no four-bit code leaves it |
| Nvfp4Simd.DecodeBlock | crates/nml-kernel-nvfp4/src/x86.rs:27-54 | the two gathered and scaled vectors are the sixteen scalar columns |
| Nvfp4Simd.DecodeRow | crates/nml-kernel-nvfp4/src/x86.rs:61-75 | the vector row decoder writes, for every width, nibble value times block scale times factor in each column |
| Nvfp4Simd.DotRow | crates/nml-kernel-nvfp4/src/x86.rs:82-100 | eight lanes plus the scalar tail sum to the plain scalar product |
| ProgramBuilder.StepKeeps | crates/nml-ir/src/lib.rs:3617-3646 | every call, failing or not, keeps operands defined, states consumed once and aliases sound, given its own random states |
| ProgramBuilder.RunKeeps | crates/nml-ir/src/lib.rs:584-598 | the invariant after any sequence of calls from a new builder |
| ProgramBuilder.RunConsumesOnce | crates/nml-ir/src/lib.rs:3628-3639 | in any run no two random operations consume the same state |
| ProgramBuilder.RunAliases | crates/nml-ir/src/lib.rs:5196-5227 | in any run an alias leads to an activation input of the same shape that no other alias leads to |
| ProgramBuilder.InputAccepted | crates/nml-ir/src/lib.rs:584-598 | an input is always accepted, as the next value with its name and shape |
| ProgramBuilder.OperateExactly | crates/nml-ir/src/lib.rs:6317-6332 | an operation is refused, changing nothing, exactly if some argument is foreign, unissued or not row-major |
| ProgramBuilder.RandomBitsExactly | crates/nml-ir/src/lib.rs:3617-3639 | an accepted random operation keeps the invariant if and only if its state names a value of this builder |
| ProgramBuilder.ForeignState | crates/nml-ir/src/lib.rs:3628-3639 | a new builder accepts another builder's state and can then not be lowered |
| ProgramBuilder.Builder.NamedInput | crates/nml-ir/src/lib.rs:584-598 | a new input is the next value, the handle returned names it, and the invariant is kept |
| ProgramBuilder.Builder.ParameterValue | crates/nml-ir/src/lib.rs:530-583 | a component becomes an input once; a later request returns it or is refused on disagreement |
| ProgramBuilder.Builder.Operate | crates/nml-ir/src/lib.rs:6317-6332 | an operation is recorded only when all its operands are local values; the handles returned name its results in order |
| ProgramBuilder.OperationRecorded | crates/nml-ir/src/lib.rs:6317-6332 | a recorded operation names its arguments in order and its results are the next values, with the shapes asked for |
| ProgramBuilder.Builder.RandomBits | crates/nml-ir/src/lib.rs:3617-3646 | consumes an unconsumed state, whoever issued it, and returns the next state and the bits |
| ProgramBuilder.Builder.ReuseBuffer | crates/nml-ir/src/lib.rs:5196-5227 | records an alias from an output to a free activation input of the same shape, or changes nothing |
| ProgramBuilder.Builder.FinishNamed | crates/nml-ir/src/lib.rs:5238-5275 | yields a program exactly for local, uniquely named outputs in supported layout, with every operand defined |
| ProgramBuilder.FinishedNames | crates/nml-ir/src/lib.rs:5238-5275 | output slot `k` of a finished program names the value of the k-th output and the input whose storage it reuses |
| ProgramBuilder.Lower | crates/nml-ir/src/lib.rs:10016-10021 | looking up operands in order succeeds exactly if each is an input or an earlier result |
| ProgramBuilder.FinishedLowers | crates/nml-ir/src/lib.rs:10016-10021 | a program finished after any run of calls meets that condition |
| ProgramBuilder.InputAliases | crates/nml-ir/src/lib.rs:8074-8079 | each input points to the last output aliased to it |
| ProgramBuilder.AliasesInvertExactly | crates/nml-ir/src/lib.rs:8074-8079 | input aliases invert output aliases if and only if no aliased tensor is listed twice |
| Patch1d.Plan | crates/nml-ir/src/lib.rs:2740-2811 | accepts exactly nonempty lists of separate in-range 32-bit patches; its indices increase strictly, so both scatter promises hold |
| Patch1d.PatchIsSequential | crates/nml-ir/src/lib.rs:2733-2740 | the one scatter, landing in any order, equals applying the patches one by one in any order |
| Patch1d.SeparateIsOrderFree | crates/nml-ir/src/lib.rs:2752-2799 | whether patches overlap does not depend on the order they are listed in |
| Ordering.PrecedesIsTotalOrder | crates/nml-ir/src/lib.rs:9884-10014 | the sort comparator is a strict total order on values with NaN and infinities and distinct positions |
| Ordering.GreaterIsSeparated | crates/nml-ir/src/lib.rs:9884-10014 | one number is greater than another if and only if neither is NaN and a real bound separates them, infinities beyond every bound |
| Ordering.PrecedesExactly | crates/nml-ir/src/lib.rs:9884-10014 | NaN comes first when descending and last when ascending, numbers follow their order, equal values their positions |
| Ordering.SortedIsUnique | crates/nml-ir/src/lib.rs:3534-3577 | two sorted arrangements of the same entries are equal, so stability never shows |
| Ordering.ArgMaxOfAnyTree | crates/nml-ir/src/lib.rs:7087-7205 | every in-order reduction tree, with initial values anywhere, finds the first maximum, NaN counting as largest |
| Ordering.TreesAgree | crates/nml-ir/src/lib.rs:7087-7205 | the reduction order never shows in the result |
| Ordering.TopIsArgMax | crates/nml-ir/src/lib.rs:3581-3604 | the first entry of a descending sort is the arg-max |
| Sampling.AcceptedIsPrefix | crates/nml-ir/src/lib.rs:3886-3911 | accepted candidates are a nonempty prefix, finite, within top-k, with mass before each later one below top-p |
| Sampling.DrawIsAccepted | crates/nml-ir/src/lib.rs:3909-3914 | the draw is accepted and maximises cooled logit plus noise among the accepted, ties to the better candidate |
| Sampling.AcceptedExactly | crates/nml-ir/src/lib.rs:3886-3911 | a candidate passes the filters if and only if it is the first, or lies in the top-k, the exponentials before it hold less than top-p of the whole, and its own is at least min-p of the first's |
| Sampling.DrawExactly | crates/nml-ir/src/lib.rs:3886-3914 | the draw is one of exactly those candidates and none of them has a larger cooled logit plus noise, or as large a one at a better rank |
| Sampling.TokenExactly | crates/nml-ir/src/lib.rs:3846-3922 | the token is the vocabulary position of that winning candidate |
| Sampling.TokenIsCandidate | crates/nml-ir/src/lib.rs:3846-3922 | the token is a vocabulary position with a finite logit, one of the top-k candidates |
| Sampling.TopOneIsGreedy | crates/nml-ir/src/lib.rs:3784-3786 | top-k one draws the greedy token whatever the noise |
| Sampling.ClampedIsNearest | crates/nml-ir/src/lib.rs:3861-3880 | each control becomes the nearest value its domain admits, so controls in their domain are unchanged |
| Sampling.RowUsesItsControls | crates/nml-ir/src/lib.rs:3846-3922 | a row whose controls are in their domain is sampled with exactly those controls |
| Sampling.RowIsCandidate | crates/nml-ir/src/lib.rs:3846-3922 | under any controls, clamped as the graph does, a row draws a finite logit among the candidates its top-k admits, and of the candidates the filters keep the winner |
| Sampling.FilterBatch | crates/nml-ir/src/lib.rs:4053-4066 | softmax, running sum, thresholds and select over the whole grid keep, in each row, exactly what the row alone would keep |
| Sampling.SampleBatch | crates/nml-ir/src/lib.rs:3935-4106 | the batched graph gives each active row what sampling it alone gives: under raw controls the winner among that row's own retained candidates; inactive rows keep their state and yield -1 |
| AttentionLaunch.SelectLaunch | crates/nml-kernel-triton/src/paged_attention.rs:76-127 | accepts exactly the valid geometries whose extents fit a word, else names the failure; an accepted one gets whole padded head groups, power-of-two tiles of at most 64 that cover a page when they can, the block count the grid needs, and its warps and stages |
| AttentionLaunch.SelectTwoDimensional | crates/nml-kernel-triton/src/paged_attention.rs:129-169 | the long-query adjustment keeps those guarantees and the stage limit, and never overflows |
| AttentionLaunch.Segments | crates/nml-kernel-triton/src/paged_attention.rs:178-190 | eight segments exactly if tiles exceed sixteen positions and eight give the target program count, else sixteen; refused exactly if the count overflows |
| AttentionLaunch.FindSequence | crates/nml-kernel-triton/src/unified_attention.rs:665-706 | the binary search returns the last sequence whose boundary does not exceed the target, in both modes |
| AttentionLaunch.EveryQueryIsServed | crates/nml-kernel-triton/src/unified_attention.rs:124-146 | for every split of the tokens into sequences and every tiling of whole head groups, each query row of each head is served by some program |
| AttentionLaunch.ServedOnce | crates/nml-kernel-triton/src/unified_attention.rs:366-380 | no query row of a head is served by two lanes |
| AttentionLaunch.SelectedGridServes | crates/nml-kernel-triton/src/paged_attention.rs:76-169 | in the grid of every launch the selector can return, each query row of each head is served by exactly one row of one program |

## Left out

- Floating-point rounding, F16 and BF16 conversion and negative zero: values are reals, except the two NVFP4 formats; a code with the sign bit over magnitude zero decodes to zero.
- Foreign calls: MLIR, XLA and PJRT construction, CUDA streams, custom-call registration and driver probing; what the emitted graph computes is modelled instead.
- Kernel bodies: the vendor flash kernels and the grouped expert kernels are contracts; of the Triton attention kernels the program-to-query mapping, the tile loop and the split-K reduction are modelled, per query row and in exact arithmetic.
- MoeExecution.GroupedIsRouteSum: the tile shapes of the grouped kernels are not modelled, because each lane's row is computed independently.
- Sampling.SampleBatch: the candidate guarantee covers rows whose largest logit is finite, as do the row lemmas; the equality with single rows covers all.
- Sampling.AcceptedIsPrefix: covers rows whose largest logit is finite; a row with NaN or positive infinity, or with no finite logit, is outside it.
- Sampling.RowIsCandidate: the generator is a parameter that yields the noise of a row from its state; its bit-level construction and the Gumbel transform are not modelled.
- ProgramBuilder.StepKeeps: composite graph operations are sequences of the modelled calls, and shape rules of single operations are not modelled.
- ProgramBuilder.Builder.Operate: result names and operation kinds are not modelled, because no invariant depends on them.
- Loader.AlwaysInvariant: a panic of a reader thread is not modelled, nor overflow of the byte totals.
- LoadPlan.BuildPlan: alias resolution in `maybe_dense` and `nvfp4`, index file parsing and SafeTensors headers are not modelled; the registry is a map from artifact to stored shape.
- StagingPeak.EstimateExactly: the CUDA staging branch uses a chunked bound that is not modelled.
- Nvfp4Convert.QuantizeTensor: a non-finite source is refused by the converter and cannot be expressed over reals.
- Nvfp4Simd.DotRow: the order of floating-point additions is not modelled, because the sum is exact.
- PagedAppend.AppendIsScatter: a program is one step; lanes of different programs are not interleaved, because they write disjoint elements.
- TritonRows.TritonExactly: the last query position of a program is a parameter that bounds the row's own; rows of one program are treated one at a time.
- Zero-extent axes in padding and cumulative sums, resizing, convolution, FFT, RoPE and the derive macros: transcendental formulas or plumbing without a deeper specification.
- The lease, artifact and audit tools: network and file-system code.
