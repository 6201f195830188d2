# Verified model of the asymmetric rebuild

When devices fail, the plugins regroup the surviving workers into uneven
tensor-parallel groups and go on serving. This project models the index, list
and protocol logic behind that and proves that it still computes what the
undisturbed system computes. Where it does not, the exact condition is proved.

| module | part of the system |
|---|---|
| `Arith`, `Groups`, `Tensors`, `Vectors`, `Wrappers` | division and sums, group lists, row-major tensors, all-reduce, Option |
| `RankGroups`, `Families` | symmetric process groups: reshape, transpose, rows |
| `AsymGroups`, `AsymTheorems`, `AsymAgreement`, `SymmetricCase` | uneven groups, each process's own rank, agreement between processes |
| `ParallelState` | the module globals of the groups on one rank, start and destroy |
| `AscendGroups`, `FineGroups` | flashcomm2 groups and the fine-grained TP groups |
| `NodeCount` | counting nodes in place |
| `VarlenGather`, `TensorDict` | all_gather_varlen, and sending and receiving tensor dictionaries |
| `Shardings`, `Linear`, `GatedLinear`, `QkvHeads`, `VocabEmbedding` | sharded layers against their dense counterparts |
| `PagedCache`, `BlockMoves`, `PagedGather`, `PagedRoundTrip` | the KV cache in its two layouts |
| `OffloadState`, `OffloadProtocol`, `OffloadTheorems`, `OffloadProgress`, `OffloadStats`, `OffloadMachine` | asynchronous KV offload: submitters, workers, callbacks interleaved |
| `SseStream` | the incremental event-stream decoder |
| `GraphSizes` | the choice of graph sizes within the stream budget |

Code that works by changing things (loops that append, arrays and caches written
in place, classes with fields) is modelled by methods and classes, each proved
against a function or predicate; the lemmas are about those. Numbers are exact:
activations and table rows are sequences of integers, cache rows are of any type.

Where the code differs from what its surroundings suggest, the code was followed:

- `all_gather_varlen` returns a reshape, which is the concatenation along the
  dimension only under the condition of `VarlenGather.ReshapeIsCatIff`.
- The offload callback is registered before the future is added, and runs in the
  submitter when the task has ended already, so a future can be added after its
  own discard and then holds its slot for good
  (`OffloadTheorems.AtQuiescence`, `LeaksArePermanent`); when that ends all
  progress is the statement of `OffloadProgress.StarvationIff`.
- Processes that list the engines differently agree on their ranks only without
  ties between engines that have processes (`AsymAgreement.AgreementIff`).
- The recorded query and key/value offsets are not the placement of uneven shards
  (`QkvHeads.RecordedOffsetIsTileIff`, `RecordedKvOffsetIsTileIff`), three ranks
  need 8 key/value heads (`QkvHeads.RebuildSizesThatFit`), and the bias of a
  replicating rank has the wrong length (`QkvHeads.BiasFitsIff`).
- Fused layers ask for more than divisibility by the 8 units
  (`Linear.FusedFitsIff`).
- The fine-grained groups assume another rank layout than all other groups
  (`FineGroups.OneStageIff`).
- With a single rank, ids of added embeddings are not remapped past the padding
  (`VocabEmbedding.SingleRankRowIff`).
- The chunked prefill passes the raw cache where the gather expects the prepared
  one (`PagedRoundTrip.NdIff`, `PagedRoundTrip.RawBnNBsDIff`).
- The size sampler raises when fewer than two graphs fit
  (`GraphSizes.AdjustmentRaisesIff`).

Upstream vLLM functions that the code imports are given their documented
meaning: `divide` is exact division or an assertion failure, `pad_vocab_size`
rounds up, the uneven vocabulary range is a contiguous tiling with the remainder
on the last rank, a sharded weight is laid out in rank order, and the device's
reshape-and-cache is the ND write that `PagedCache.Written` states.

Five of the modelled files end their lines with bare carriage returns; a reader
that splits on line feeds sees each of them as one line, hence the `:1` below.

## Model

| member | source | states |
|---|---|---|
| `RankGroups.GroupedTheorem` | vllm_custom_plugins/plugins/zero_interrupt/vllm/distributed/parallel_state.py:1758-1954 | Any shape, any transposed pair of axes, any number of trailing axes: the rows partition the ranks, and two ranks share a row exactly when their transposed indices agree on the leading axes. |
| `RankGroups.CellHasHome` | vllm_custom_plugins/plugins/zero_interrupt/vllm/distributed/parallel_state.py:1758-1954 | Any such grouping: member k of row g is the rank whose transposed index has row-major position g on the leading axes and k on the trailing ones. |
| `Families.SymmetricFamilies` | vllm_custom_plugins/plugins/zero_interrupt/vllm/distributed/parallel_state.py:1758-1911 | For all sizes at least 1, the TP, PCP, PP and DP groups each partition the world, two ranks share a group exactly when they differ only in that family's coordinate, and the members of a group come in the order of that coordinate. |
| `Families.CoordsAreDigits` | vllm_custom_plugins/plugins/zero_interrupt/vllm/distributed/parallel_state.py:1751-1764 | A rank's coordinates are its digits in the order external DP, DP, PP, PCP, TP, each below its size. |
| `Families.ExpertFamily` | vllm_custom_plugins/plugins/zero_interrupt/vllm/distributed/parallel_state.py:1944-1954 | The EP groups (and the MC2 groups, built the same way) partition the world; two ranks share one exactly when they agree on external DP and on the pipeline stage. |
| `Families.TpMeetsDpOnce` | vllm_custom_plugins/plugins/zero_interrupt/vllm/distributed/parallel_state.py:1758-1911 | A TP group and a DP group have at most one rank in common. |
| `Families.ContiguousRows` | vllm_custom_plugins/plugins/zero_interrupt/vllm/distributed/parallel_state.py:1813-1814 | Rows of the untransposed ranks, for any width that divides the world: a partition, and rank r sits in row r / width. |
| `Families.DcpRefinesTpIff` | vllm_custom_plugins/plugins/zero_interrupt/vllm/distributed/parallel_state.py:1813-1814 | Whenever the DCP reshape is possible, every DCP group lies inside one TP group if and only if dcp divides tp. |
| `AsymGroups.SortedIgnoresListing` | vllm_custom_plugins/plugins/zero_interrupt/vllm/distributed/parallel_state.py:1391-1391 | With distinct data-parallel ranks, sorting gives the same list however the engines were listed. |
| `AsymGroups.AsymWorldSize` | vllm_custom_plugins/plugins/zero_interrupt/vllm/distributed/parallel_state.py:1368-1374 | The loop returns the sum of all new_tp, and fails exactly when it is 0. |
| `AsymGroups.GetGlobalRankAsym` | vllm_custom_plugins/plugins/zero_interrupt/vllm/distributed/parallel_state.py:1376-1399 | The loop returns offset plus local rank for the first sorted engine with this executor id, and fails exactly when there is none. |
| `AsymGroups.BuildTpGroups` | vllm_custom_plugins/plugins/zero_interrupt/vllm/distributed/parallel_state.py:1769-1778 | The running offset gives engine i the new_tp consecutive ranks after those of the engines before it. |
| `AsymGroups.BuildSingletons` | vllm_custom_plugins/plugins/zero_interrupt/vllm/distributed/parallel_state.py:1806-1811 | The nested loops give one group for every rank of the world (DCP, PCP and PP). |
| `AsymGroups.BuildDpGroups` | vllm_custom_plugins/plugins/zero_interrupt/vllm/distributed/parallel_state.py:1904-1908 | The zip_longest loop, with its fill values dropped, gives the columns of the ragged TP groups. |
| `AsymTheorems.TpGroupsPartition` | vllm_custom_plugins/plugins/zero_interrupt/vllm/distributed/parallel_state.py:1769-1778 | The asymmetric TP groups partition the world, whatever the new_tp values, zeros included. |
| `AsymTheorems.ColumnIsExact` | vllm_custom_plugins/plugins/zero_interrupt/vllm/distributed/parallel_state.py:1904-1908 | There are max(new_tp) DP groups, and group j holds exactly the j-th member of every TP group longer than j, in order; none is empty. |
| `AsymTheorems.DpGroupsPartition` | vllm_custom_plugins/plugins/zero_interrupt/vllm/distributed/parallel_state.py:1904-1908 | The ragged transpose of any partition is a partition of the same ranks. |
| `AsymTheorems.AsymmetricFamilies` | vllm_custom_plugins/plugins/zero_interrupt/vllm/distributed/parallel_state.py:1769-1942 | All asymmetric families partition one world, the one asym_world_size computes without sorting. |
| `AsymTheorems.RankSitsInOwnGroup` | vllm_custom_plugins/plugins/zero_interrupt/vllm/distributed/parallel_state.py:1376-1399 | With distinct executor ids, the rank a process computes for itself is member local_rank of its executor's TP group. |
| `AsymTheorems.RanksAreDistinct` | vllm_custom_plugins/plugins/zero_interrupt/vllm/distributed/parallel_state.py:1376-1399 | No two (executor, local rank) pairs get the same global rank. |
| `AsymTheorems.RanksCoverWorld` | vllm_custom_plugins/plugins/zero_interrupt/vllm/distributed/parallel_state.py:1376-1399 | Every rank below the world size is some process's rank; with the row above, a bijection. |
| `AsymAgreement.AgreementIff` | vllm_custom_plugins/plugins/zero_interrupt/vllm/distributed/parallel_state.py:1376-1399 | With distinct executor ids: every process computes the same rank for itself under every listing of the configurations, if and only if no two executors with processes share a data-parallel rank. |
| `AsymAgreement.RankIsBelow` | vllm_custom_plugins/plugins/zero_interrupt/vllm/distributed/parallel_state.py:1391-1397 | Without such ties a process's rank is its local rank plus the number of processes of the executors with a smaller data-parallel rank. |
| `AsymAgreement.LiveTieDisagrees` | vllm_custom_plugins/plugins/zero_interrupt/vllm/distributed/parallel_state.py:1391-1397 | Two executors with processes and one data-parallel rank, in front of any other configurations: swapping them changes their processes' ranks. |
| `AsymAgreement.GroupsAgreeAcrossListings` | vllm_custom_plugins/plugins/zero_interrupt/vllm/distributed/parallel_state.py:1769-1778 | Under the condition of AgreementIff all listings also give the same non-empty TP groups and the same world size. |
| `AsymAgreement.AgreementAcrossListings` | vllm_custom_plugins/plugins/zero_interrupt/vllm/distributed/parallel_state.py:1376-1399 | With distinct data-parallel ranks the lists of TP groups are equal as well, empty groups included, and so are failed lookups. |
| `AsymAgreement.KnownExecutorsHaveRanks` | vllm_custom_plugins/plugins/zero_interrupt/vllm/distributed/parallel_state.py:1392-1399 | The lookup fails exactly for an executor id that is not configured. |
| `SymmetricCase.EvenRebuildIsSymmetric` | vllm_custom_plugins/plugins/zero_interrupt/vllm/distributed/parallel_state.py:1769-1954 | When all new_tp are equal, every asymmetric family equals the symmetric one with pp = pcp = dcp = 1. |
| `ParallelState.RunSucceedsIff` | vllm_custom_plugins/plugins/zero_interrupt/vllm/distributed/parallel_state.py:1766-2006 | The start goes through on a rank exactly when every global it touches was None and every group construction succeeds there. |
| `ParallelState.PossibleIff` | vllm_custom_plugins/plugins/zero_interrupt/vllm/distributed/parallel_state.py:330-349 | The assertion in the group constructor: groups that partition a world can be built on exactly the ranks of that world. |
| `ParallelState.RunKeepsOld` | vllm_custom_plugins/plugins/zero_interrupt/vllm/distributed/parallel_state.py:1766-2006 | Complete or aborted, no start overwrites or drops a group that is already set. |
| `ParallelState.AsymmetricStart` | vllm_custom_plugins/plugins/zero_interrupt/vllm/distributed/parallel_state.py:1766-2006 | From cleared globals the asymmetric start goes through on exactly the ranks of the new world, dense or not; all groups it set, even before a failure, partition that world. A full start sets TP by executor and DP across executors, leaves every rank alone in DCP, PCP and PP, puts all ranks into one EP group for experts only, and sets no EPLB. |
| `ParallelState.OwnRankStarts` | vllm_custom_plugins/plugins/zero_interrupt/vllm/distributed/parallel_state.py:1376-1399 | So every process of a configured executor can start on the rank it computes for itself. |
| `ParallelState.SymmetricStart` | vllm_custom_plugins/plugins/zero_interrupt/vllm/distributed/parallel_state.py:1758-2006 | From cleared globals the symmetric start goes through on exactly the ranks of the world, provided dcp divides it. Then TP, PCP, PP and DP each cut the world along their own axis, DCP makes runs of dcp ranks, EP joins the ranks of one external replica and stage, EPLB equals EP, and exactly the configured families are set. |
| `ParallelState.StartTwice` | vllm_custom_plugins/plugins/zero_interrupt/vllm/distributed/parallel_state.py:1768-1768 | A second start without a destroy fails at the first check and changes nothing. |
| `ParallelState.State.InitializeAsymmetric` | vllm_custom_plugins/plugins/zero_interrupt/vllm/distributed/parallel_state.py:1750-2006 | Building the groups with the loops and setting the globals in order has the effect of the specified run of steps; from cleared globals it succeeds on exactly the new world's ranks and then leaves the groups AsymmetricStart lists, and with TP set it fails and changes nothing. |
| `ParallelState.State.InitializeSymmetric` | vllm_custom_plugins/plugins/zero_interrupt/vllm/distributed/parallel_state.py:1758-2006 | The symmetric branch in place: from cleared globals it succeeds exactly on the ranks of a world that dcp divides and then leaves the groups SymmetricStart lists; with TP already set it fails and changes nothing. |
| `ParallelState.State.Rebuild` | vllm_custom_plugins/plugins/zero_interrupt/vllm/distributed/parallel_state.py:2151-2187 | Destroy followed by the asymmetric start succeeds on a rank if and only if it lies in the new world, and then leaves TP by executor, DP across executors, single ranks in DCP, PCP and PP, and one EP group for experts. |
| `ParallelState.WholeWorld` | vllm_custom_plugins/plugins/zero_interrupt/vllm_ascend/distributed/parallel_state.py:99-99 | One group of all ranks (asymmetric EP and MC2) is a partition. |
| `AscendGroups.Flashcomm2PartitionIff` | vllm_custom_plugins/plugins/zero_interrupt/vllm_ascend/distributed/parallel_state.py:369-389 | OTP groups and ODP groups each partition all dp * pp * tp ranks if and only if otp divides tp. |
| `AscendGroups.StrandMembers` | vllm_custom_plugins/plugins/zero_interrupt/vllm_ascend/distributed/parallel_state.py:369-389 | When otp divides tp, two ranks share an OTP group exactly when they lie on one strand of a TP block (equal index modulo tp / otp), and an ODP group when they lie in one run of tp / otp ranks. |
| `AscendGroups.LastRankLeftOut` | vllm_custom_plugins/plugins/zero_interrupt/vllm_ascend/distributed/parallel_state.py:369-389 | Otherwise the last rank of the first TP block is in no group. |
| `AscendGroups.OtpMeetsOdpOnce` | vllm_custom_plugins/plugins/zero_interrupt/vllm_ascend/distributed/parallel_state.py:369-389 | An OTP and an ODP group of one TP block have exactly one rank in common, and it is named. |
| `AscendGroups.OneOtpRank` | vllm_custom_plugins/plugins/zero_interrupt/vllm_ascend/distributed/parallel_state.py:366-369 | With one OTP rank the code falls back to the TP groups; those are the ODP groups of that case. |
| `AscendGroups.BuildFlashcomm2Groups` | vllm_custom_plugins/plugins/zero_interrupt/vllm_ascend/distributed/parallel_state.py:369-389 | The four nested loops, with their index arithmetic in range, append exactly the OTP and ODP groups in block order. |
| `AscendGroups.ReorganizedBatchIds` | vllm_custom_plugins/plugins/zero_interrupt/vllm_ascend/utils.py:1236-1252 | The batch ids are the OTP groups of the first TP block: a prefix of all OTP groups. |
| `FineGroups.FinePartitionIff` | vllm_custom_plugins/plugins/zero_interrupt/vllm_ascend/distributed/parallel_state.py:322-342 | The fine-grained groups cover every rank exactly once if and only if the group size divides dp. |
| `FineGroups.FineMembers` | vllm_custom_plugins/plugins/zero_interrupt/vllm_ascend/distributed/parallel_state.py:322-342 | For any sizes: two ranks share a fine-grained group exactly when they agree on the TP index, on the first axis of the (pp, dp, tp) grid and on a whole chunk of its second axis. |
| `FineGroups.LastIndexLeftOut` | vllm_custom_plugins/plugins/zero_interrupt/vllm_ascend/distributed/parallel_state.py:322-342 | Otherwise every rank of the last data-parallel index of stage 0 is in no group. |
| `FineGroups.OneStageIff` | vllm_custom_plugins/plugins/zero_interrupt/vllm_ascend/distributed/parallel_state.py:322-342 | The grid is (pp, dp, tp) while all other families use (dp, pp, tp): a group stays within one pipeline stage if and only if pp = 1 or its size is 1. |
| `FineGroups.BuildGroups` | vllm_custom_plugins/plugins/zero_interrupt/vllm_ascend/distributed/parallel_state.py:327-336 | The nested loops over stage, chunk and TP index build exactly these groups in order. |
| `FineGroups.GroupCache.CreateOrGet` | vllm_custom_plugins/plugins/zero_interrupt/vllm_ascend/distributed/parallel_state.py:324-342 | Equal sizes share one cached group, whichever component asks first; other entries stay. |
| `NodeCount.NodesAreClasses` | vllm_custom_plugins/plugins/zero_interrupt/vllm/distributed/parallel_state.py:2373-2409 | A finished assignment gives two ranks the same id exactly when they are on the same node, and uses as many ids as there are nodes. |
| `NodeCount.AssignNodes` | vllm_custom_plugins/plugins/zero_interrupt/vllm/distributed/parallel_state.py:2391-2409 | The in-place loops end in such an assignment, with ids 1 to count, for every equivalence relation and world size. |
| `NodeCount.Count` | vllm_custom_plugins/plugins/zero_interrupt/vllm/distributed/parallel_state.py:2373-2409 | The result is the number of equivalence classes, the single-rank shortcut included. |
| `VarlenGather.FillBuffer` | vllm_custom_plugins/plugins/zero_interrupt/vllm/distributed/device_communicators/patch_base_device_communicator.py:1 | On one rank: a zero buffer of the total size with the moved input at the rank's offset; the slice always fits. |
| `VarlenGather.AllGatherVarlen` | vllm_custom_plugins/plugins/zero_interrupt/vllm/distributed/device_communicators/patch_base_device_communicator.py:1 | For any lengths, zeros included, the all-reduced buffer, the same on every rank, is the rank-order concatenation of the moved inputs. |
| `VarlenGather.CatCell` | vllm_custom_plugins/plugins/zero_interrupt/vllm/distributed/device_communicators/patch_base_device_communicator.py:1 | Where each cell of torch.cat along the dimension is found in that concatenation. |
| `VarlenGather.ReshapeIsCatIff` | vllm_custom_plugins/plugins/zero_interrupt/vllm/distributed/device_communicators/patch_base_device_communicator.py:1 | The returned reshape is torch.cat along the dimension, for every input, if and only if the dimensions before it have product at most 1, or at most one slice is gathered in all, or a slice is empty. |
| `TensorDict.ISendTensorDict` | vllm_custom_plugins/plugins/zero_interrupt/vllm/distributed/parallel_state.py:865-920 | The send loop posts one message for each non-empty tensor, in dictionary order: all of it without a group, with an override of false, or without an override when the group does not divide its size; otherwise the rank's slice of size / group cells. It fails exactly when an override of true meets an indivisible size. |
| `TensorDict.IRecvTensorDict` | vllm_custom_plugins/plugins/zero_interrupt/vllm/distributed/parallel_state.py:960-1044 | The receive loop posts one buffer for each non-empty tensor of the metadata, whole or a slice by the same rule, and fills in plain values and empty tensors; it fails exactly when an override of true meets an indivisible size. |
| `TensorDict.RecvTensorDict` | vllm_custom_plugins/plugins/zero_interrupt/vllm/distributed/parallel_state.py:922-958 | Waiting and postprocessing store the arrived or all-gathered tensor under its key and leave everything else. |
| `TensorDict.SendMatchesReceive` | vllm_custom_plugins/plugins/zero_interrupt/vllm/distributed/parallel_state.py:865-1044 | There are as many messages as posted buffers, and the i-th of both belong to one entry: same key, channel and element count, and the message carries that entry's tensor or slice. |
| `TensorDict.GatheredIff` | vllm_custom_plugins/plugins/zero_interrupt/vllm/distributed/parallel_state.py:1008-1030 | An all-gathered tensor equals a given one if and only if each rank sent that tensor's slice. |
| `TensorDict.DeliveredIffReplicated` | vllm_custom_plugins/plugins/zero_interrupt/vllm/distributed/parallel_state.py:865-1044 | The received dictionary is the sent one if and only if every tensor that travelled in slices was replicated over the group. |
| `TensorDict.Transfer` | vllm_custom_plugins/plugins/zero_interrupt/vllm/distributed/parallel_state.py:73-96 | Send from every rank, receive on one: the keys are the sender's; plain values, empty tensors and tensors that travel whole arrive as the rank's own, whatever the others hold; of a sliced tensor every cell comes from the rank whose slice it lies in. So the dictionary is delivered if and only if the sliced tensors were replicated. |
| `Shardings.ShardingsTile` | vllm_custom_plugins/plugins/zero_interrupt/vllm_ascend/ops/patch_ascend_linear.py:1 | One share per rank, none empty, never growing with the rank, all units given out. |
| `Shardings.PartsTile` | vllm_custom_plugins/plugins/zero_interrupt/vllm_ascend/ops/patch_ascend_linear.py:1 | The construction succeeds on all ranks or on none, and then the part sizes add up to the full size. |
| `Shardings.EvenChunksFitIff` | vllm_custom_plugins/plugins/zero_interrupt/vllm_ascend/ops/patch_ascend_linear.py:1 | An even split of the input into tp chunks fits the uneven weight shards if and only if tp is 1, 2, 4 or at least 8. |
| `Linear.ShardedIsDense` | vllm_custom_plugins/plugins/zero_interrupt/vllm_ascend/ops/patch_ascend_linear.py:1 | Any contiguous tiling of the hidden units: column-parallel, any elementwise function, row-parallel and all-reduce equal the dense two layers, bias added once. |
| `Linear.DenseIs` | vllm_custom_plugins/plugins/zero_interrupt/vllm_ascend/ops/patch_ascend_linear.py:1 | The dense reference written out: every hidden unit and every output is a weighted sum plus its bias. |
| `Linear.UnevenLayersAreDense` | vllm_custom_plugins/plugins/zero_interrupt/vllm_ascend/ops/patch_ascend_linear.py:1 | For every tp and input: the layers can be built exactly when the units divide the hidden size, and then output plus returned bias is the dense result. |
| `Linear.OutputPartitionSizes` | vllm_custom_plugins/plugins/zero_interrupt/vllm_ascend/ops/patch_ascend_linear.py:1 | The column-parallel constructor with several outputs gives each output's own part size, which add up to its part of the total, and fails exactly when an output does not divide by the units. |
| `Linear.MergedPartitionSizes` | vllm_custom_plugins/plugins/zero_interrupt/vllm_ascend/ops/patch_ascend_linear.py:1 | The fused constructor, which first asserts divisibility by the number of ranks, succeeds exactly when every output divides by the ranks and by the units. |
| `Linear.FusedFitsIff` | vllm_custom_plugins/plugins/zero_interrupt/vllm_ascend/ops/patch_ascend_linear.py:1 | That is: every output is a multiple of 24 for 3 and 6 ranks, 40 for 5, 56 for 7, and of the units otherwise. |
| `Linear.RowPartsAreDense` | vllm_custom_plugins/plugins/zero_interrupt/vllm_ascend/ops/patch_ascend_linear.py:1 | Row-parallel alone: when every rank holds its slice of one hidden vector, the summed parts are the dense layer, bias added once. |
| `GatedLinear.GatedHiddenIs` | vllm_custom_plugins/plugins/zero_interrupt/vllm_ascend/ops/patch_ascend_linear.py:1 | The dense gated block written out: hidden unit k combines output k of the gate projection with output k of the up projection. |
| `GatedLinear.ActivatedIsSlice` | vllm_custom_plugins/plugins/zero_interrupt/vllm_ascend/ops/patch_ascend_linear.py:1 | Fused gate and up projection: a rank's activated output is its slice of the dense one, as gate and up rows stay paired. |
| `GatedLinear.GatedIsDense` | vllm_custom_plugins/plugins/zero_interrupt/vllm_ascend/ops/patch_ascend_linear.py:1 | Fused column layer, gated activation and row layer: for every tp and input they can be built exactly when the hidden size is a multiple of the fused unit, and then compute the dense block. |
| `QkvHeads.KvSplitSucceedsIff` | vllm_custom_plugins/plugins/zero_interrupt/vllm_ascend/ops/patch_ascend_linear.py:1 | The branches on key/value heads get through exactly when share and span divide one another, and then describe one replicated head or the proportional number. |
| `QkvHeads.SplitMeaning` | vllm_custom_plugins/plugins/zero_interrupt/vllm_ascend/ops/patch_ascend_linear.py:1 | A rank's construction, the parent's division of the fused size included, succeeds exactly when query heads and key and value rows divide and its share is commensurate; a non-replicated rank keeps the global ratio, a replicated one has one KV head with share * replicas * KV = units. |
| `QkvHeads.QueryHeadsTile` | vllm_custom_plugins/plugins/zero_interrupt/vllm_ascend/ops/patch_ascend_linear.py:1 | Query heads over all ranks sum to the total. |
| `QkvHeads.RebuildSizesThatFit` | vllm_custom_plugins/plugins/zero_interrupt/vllm_ascend/ops/patch_ascend_linear.py:1 | Up to 8 ranks and for 1, 2, 4 or 8 KV heads, all ranks get through if and only if 4 divides the key rows and tp is not 3 or there are 8 KV heads. |
| `QkvHeads.ManyKvHeadsAlwaysFit` | vllm_custom_plugins/plugins/zero_interrupt/vllm_ascend/ops/patch_ascend_linear.py:1 | With a multiple of 8 KV heads every rank of every such rebuild gets through. |
| `QkvHeads.RankHoldsTheHeadsItNeeds` | vllm_custom_plugins/plugins/zero_interrupt/vllm_ascend/ops/patch_ascend_linear.py:1 | For every number of ranks and heads: wherever the construction succeeds, a rank's query heads, placed in order, are served by exactly as many KV heads as it holds. |
| `QkvHeads.RecordedOffsetIsTileIff` | vllm_custom_plugins/plugins/zero_interrupt/vllm_ascend/ops/patch_ascend_linear.py:1 | _q_shard_offset is the contiguous placement exactly on the ranks whose share is as large as rank 0's. |
| `QkvHeads.FirstKvHeadServes` | vllm_custom_plugins/plugins/zero_interrupt/vllm_ascend/ops/patch_ascend_linear.py:1 | Which KV head serves a rank's first query head. |
| `QkvHeads.RecordedKvOffsetIsTileIff` | vllm_custom_plugins/plugins/zero_interrupt/vllm_ascend/ops/patch_ascend_linear.py:1 | _kv_shard_offset is that head's place exactly on the second rank of an equal pair when there are at least as many KV heads as ranks, and otherwise on the ranks that use the first head. |
| `QkvHeads.BiasFitsIff` | vllm_custom_plugins/plugins/zero_interrupt/vllm_ascend/ops/patch_ascend_linear.py:1 | The bias the parent allocates is as long as the rank's output if and only if the KV heads times the rank's share reach the units (or heads have size 0). |
| `QkvHeads.ReplicatesIff` | vllm_custom_plugins/plugins/zero_interrupt/vllm_ascend/ops/patch_ascend_linear.py:1 | That is the condition under which a rank does not replicate its KV head. |
| `QkvHeads.QkvParallelLinear.Init` | vllm_custom_plugins/plugins/zero_interrupt/vllm_ascend/ops/patch_ascend_linear.py:1 | The statements of the uneven branch and of its column-parallel parent set every size field to the specified split, and fail exactly when it does. |
| `VocabEmbedding.PartsTile` | vllm_custom_plugins/plugins/zero_interrupt/vllm_ascend/utils.py:1480-1511 | asymmetric_divide gives every position below the total to exactly one rank. |
| `VocabEmbedding.PartsAreContiguous` | vllm_custom_plugins/plugins/zero_interrupt/vllm_ascend/utils.py:1480-1511 | The parts lie end to end from 0 to the total; every part but the last is the floor of an equal share, and the last is at least as large by less than the number of ranks. |
| `VocabEmbedding.VocabRangeIs` | vllm_custom_plugins/plugins/zero_interrupt/vllm_ascend/ops/patch_vocab_parallel_embedding.py:1 | The even range is the uneven one wherever exact division allows it. |
| `VocabEmbedding.ShortcutAgrees` | vllm_custom_plugins/plugins/zero_interrupt/vllm_ascend/ops/patch_vocab_parallel_embedding.py:1 | The shortcut for an empty added vocabulary equals the general formula on every input. |
| `VocabEmbedding.MaskMeaning` | vllm_custom_plugins/plugins/zero_interrupt/vllm_ascend/ops/patch_vocab_parallel_embedding.py:1 | An id is unmasked exactly on the rank whose range holds it, and its local index is in bounds and is the id's own row: original rows, padding, then added rows. |
| `VocabEmbedding.OneOwner` | vllm_custom_plugins/plugins/zero_interrupt/vllm_ascend/ops/patch_vocab_parallel_embedding.py:1 | Every id of the vocabulary has exactly one such rank, every other integer none. |
| `VocabEmbedding.VocabParallelEmbedding.Init` | vllm_custom_plugins/plugins/zero_interrupt/vllm_ascend/ops/patch_vocab_parallel_embedding.py:1 | The constructor's statements: the original size defaults to the full one when missing or 0, both padded sizes are least multiples of the padding, the rank's indices and its unpadded shares; it fails exactly when an even split does not divide. |
| `VocabEmbedding.OwnedAddsUp` | vllm_custom_plugins/plugins/zero_interrupt/vllm_ascend/ops/patch_vocab_parallel_embedding.py:1 | The ranks' unpadded shares add up to the original and the added vocabulary. |
| `VocabEmbedding.VocabParallelEmbedding.ForwardOrigin` | vllm_custom_plugins/plugins/zero_interrupt/vllm_ascend/ops/patch_vocab_parallel_embedding.py:1 | On one of several ranks: the table's rows for the tokens it owns, zeros for all others, failing exactly when the shard has no row; a single rank looks tokens up unmapped. |
| `VocabEmbedding.Forward` | vllm_custom_plugins/plugins/zero_interrupt/vllm_ascend/ops/patch_vocab_parallel_embedding.py:1 | Lookup and in-place masked fill on one rank: the masked row of every token, failing exactly when an index is out of range. |
| `VocabEmbedding.EveryRankHasRowsIff` | vllm_custom_plugins/plugins/zero_interrupt/vllm_ascend/ops/patch_vocab_parallel_embedding.py:1 | All ranks have a row to look up for masked tokens if and only if one of the padded sizes reaches tp. |
| `VocabEmbedding.MaskedReadsIff` | vllm_custom_plugins/plugins/zero_interrupt/vllm_ascend/ops/patch_vocab_parallel_embedding.py:1 | With the mask on, any token can be looked up on a rank if and only if that rank has a row. |
| `VocabEmbedding.LookupIsPlain` | vllm_custom_plugins/plugins/zero_interrupt/vllm_ascend/ops/patch_vocab_parallel_embedding.py:1 | The sum over the ranks is the full table's row for every id of the vocabulary and zeros for every other id. |
| `VocabEmbedding.EmbedTpIsPlain` | vllm_custom_plugins/plugins/zero_interrupt/vllm_ascend/ops/patch_vocab_parallel_embedding.py:1 | all_gather, masked lookup and reduce_scatter give each rank the plain lookup of its own tokens. |
| `VocabEmbedding.SingleRankRowIff` | vllm_custom_plugins/plugins/zero_interrupt/vllm_ascend/ops/patch_vocab_parallel_embedding.py:1 | With tp = 1 nothing is remapped: the index is right if and only if the id is an original one or the original vocabulary has no padding. |
| `VocabEmbedding.SingleRankMissesAddedIds` | vllm_custom_plugins/plugins/zero_interrupt/vllm_ascend/ops/patch_vocab_parallel_embedding.py:1 | With padding, every added id reads a wrong row of a concrete table. |
| `PagedCache.SmallRanks` | vllm_custom_plugins/plugins/zero_interrupt/vllm_ascend/attention/patch_attention_v1.py:1 | Exactly which ranks of which group sizes keep the BnNBsD layout. |
| `PagedCache.IndexIsRowMajor` | vllm_custom_plugins/plugins/zero_interrupt/vllm_ascend/attention/patch_attention_v1.py:1 | The position used for a cell is its row-major position in the shape get_kv_cache_shape allocates for that rank. |
| `PagedCache.CoordinatesOfIndex` | vllm_custom_plugins/plugins/zero_interrupt/vllm_ascend/device/patch_device_op.py:1 | flat_idx, and the ND position, are injective and in range: block, head and offset are read back from them. |
| `PagedCache.RelayoutRoundTrip` | vllm_custom_plugins/plugins/zero_interrupt/vllm_ascend/device/patch_device_op.py:1 | Changing the layout and back is the identity. |
| `PagedCache.ScatterWriteCache` | vllm_custom_plugins/plugins/zero_interrupt/vllm_ascend/device/patch_device_op.py:1 | In place, for keys and values: the first M heads of a used slot's cells hold a token of that slot; heads from M on, unmapped slots and padding slots leave the cache unchanged. |
| `PagedCache.WrittenIsUnique` | vllm_custom_plugins/plugins/zero_interrupt/vllm_ascend/device/patch_device_op.py:1 | With distinct slots that is a function: one outcome per cache. |
| `PagedCache.ScatterRefinesNdWrite` | vllm_custom_plugins/plugins/zero_interrupt/vllm_ascend/device/patch_device_op.py:1 | The BnNBsD write refines the ND write: both give the same cache under the layout permutation. |
| `PagedCache.PaddingIsSkipped` | vllm_custom_plugins/plugins/zero_interrupt/vllm_ascend/device/patch_device_op.py:1 | Filtering slot_mapping >= 0 first changes nothing else about the write. |
| `BlockMoves.SwapBlocks` | vllm_custom_plugins/plugins/zero_interrupt/vllm_ascend/attention/patch_attention_v1.py:1 | In place between two caches: each destination block holds its source block as it was, all others stay, in either layout. |
| `BlockMoves.CopyBlocks` | vllm_custom_plugins/plugins/zero_interrupt/vllm_ascend/attention/patch_attention_v1.py:1 | The same within every cache of every layer, also when a block is both source and destination. |
| `BlockMoves.MoveRelayouts` | vllm_custom_plugins/plugins/zero_interrupt/vllm_ascend/attention/patch_attention_v1.py:1 | Block moves commute with the layout permutation. |
| `BlockMoves.MovedIsUnique` | vllm_custom_plugins/plugins/zero_interrupt/vllm_ascend/attention/patch_attention_v1.py:1 | With distinct destinations the outcome is determined. |
| `PagedGather.GatheredAt` | vllm_custom_plugins/plugins/zero_interrupt/vllm_ascend/attention/patch_attention_v1.py:1 | After block gather and permutation, row h of padded token k is at k * N + h in both layouts. |
| `PagedGather.DenseIsTokens` | vllm_custom_plugins/plugins/zero_interrupt/vllm_ascend/attention/patch_attention_v1.py:1 | Gather, permutation and length mask deliver exactly the tokens at the batch's slots. |
| `PagedGather.SlotsOfRequest` | vllm_custom_plugins/plugins/zero_interrupt/vllm_ascend/attention/patch_attention_v1.py:1 | Those slots are, request by request and in order of position, block_table[pos / bs] * bs + pos % bs. |
| `PagedRoundTrip.SlotsDistinct` | vllm_custom_plugins/plugins/zero_interrupt/vllm_ascend/attention/patch_attention_v1.py:1 | Distinct used blocks give distinct slots. |
| `PagedRoundTrip.LastRowStays` | vllm_custom_plugins/plugins/zero_interrupt/vllm_ascend/device/patch_device_op.py:1 | After any sequence of cache writes, a slot holds the row last written to it. |
| `PagedRoundTrip.WritesCompose` | vllm_custom_plugins/plugins/zero_interrupt/vllm_ascend/device/patch_device_op.py:1 | Two writes to different slots are one write of both token lists. |
| `PagedRoundTrip.StoredByOneWrite` | vllm_custom_plugins/plugins/zero_interrupt/vllm_ascend/attention/patch_attention_v1.py:1 | With distinct used blocks, one write of all tokens of all requests stores the batch. |
| `PagedRoundTrip.PreparedRoundTrip` | vllm_custom_plugins/plugins/zero_interrupt/vllm_ascend/attention/patch_attention_v1.py:1 | BnNBsD: slicing padding heads off and gathering returns the stored tokens in order, for any number of padding heads, also when requests share blocks. |
| `PagedRoundTrip.RoundTripAfterWrites` | vllm_custom_plugins/plugins/zero_interrupt/vllm_ascend/attention/patch_attention_v1.py:1 | So after any prefill and decode writes, in any order, the batch is read back as it was last written. |
| `PagedRoundTrip.NdIff` | vllm_custom_plugins/plugins/zero_interrupt/vllm_ascend/attention/patch_attention_v1.py:1 | ND: the tokens come back if and only if there are no padding heads and a cache passed raw has head size 1. |
| `PagedRoundTrip.NdRoundTripAfterWritesIff` | vllm_custom_plugins/plugins/zero_interrupt/vllm_ascend/attention/patch_attention_v1.py:1 | ND after any prefill and decode writes, in any order: read back as last written if and only if the same condition holds. |
| `PagedRoundTrip.RawBnNBsDIff` | vllm_custom_plugins/plugins/zero_interrupt/vllm_ascend/attention/patch_attention_v1.py:1 | BnNBsD passed raw, as the chunked prefill does: the tokens come back if and only if there are no padding heads. |
| `PagedRoundTrip.LayoutsAgree` | vllm_custom_plugins/plugins/zero_interrupt/vllm_ascend/attention/patch_attention_v1.py:1 | The two gather branches read the same dense sequence from one cache in its two layouts. |
| `OffloadProtocol.StepKeepsSlots` | vllm_custom_plugins/plugins/async_kv_offload/patch.py:117-194 | Each step of each thread keeps the slot bound. |
| `OffloadTheorems.RunKeepsInv` | vllm_custom_plugins/plugins/async_kv_offload/patch.py:117-200 | Every interleaving keeps the whole invariant: slot bound, ownership of futures, exact pending set, exact queue, accounting. |
| `OffloadTheorems.SlotBound` | vllm_custom_plugins/plugins/async_kv_offload/patch.py:117-184 | In every interleaving of k submitters, tracked futures plus calls between check and add never exceed max_inflight + k - 1 (0 when max_inflight is not positive). |
| `OffloadTheorems.BoundIsReached` | vllm_custom_plugins/plugins/async_kv_offload/patch.py:117-184 | That bound is reached: k submitters can track max_inflight + k - 1 futures. |
| `OffloadTheorems.OneSubmitterRespectsLimit` | vllm_custom_plugins/plugins/async_kv_offload/patch.py:117-184 | One submitter alone never exceeds max_inflight. |
| `OffloadTheorems.NothingGoesMissing` | vllm_custom_plugins/plugins/async_kv_offload/patch.py:173-184 | An added future whose callback has not run is in the pending set. |
| `OffloadTheorems.AtQuiescence` | vllm_custom_plugins/plugins/async_kv_offload/patch.py:143-200 | At rest every call was counted once, completed equals submitted, and the pending set holds exactly the futures added after their own callback ran. |
| `OffloadTheorems.LeaksArePermanent` | vllm_custom_plugins/plugins/async_kv_offload/patch.py:173-184 | Such a future stays in the pending set in every continuation. |
| `OffloadTheorems.LeaksStarve` | vllm_custom_plugins/plugins/async_kv_offload/patch.py:128-140 | Once as many have leaked as there are slots, no slot check succeeds in any continuation. |
| `OffloadProgress.StarvationIff` | vllm_custom_plugins/plugins/async_kv_offload/patch.py:117-200 | From every reachable state, with tasks queued for any positive number of workers: no slot check can succeed in any continuation if and only if the leaked futures, plus one when every call holds a future that it must add after its discard, reach max_inflight. A call must do so once its task ended before add_done_callback or its callback has run. |
| `OffloadProgress.RestStarvesIff` | vllm_custom_plugins/plugins/async_kv_offload/patch.py:117-184 | At rest: if and only if as many futures have leaked as there are slots. With fewer, some continuation admits a task. |
| `OffloadProgress.StarvesBeforeTheLeak` | vllm_custom_plugins/plugins/async_kv_offload/patch.py:171-184 | The extra term is needed: with one slot and one call whose task has ended, nothing has leaked and yet no check can succeed again. |
| `OffloadTheorems.EverySlotCanLeak` | vllm_custom_plugins/plugins/async_kv_offload/patch.py:171-184 | One submitter alone has a run that leaks every slot: each task ends before its callback is registered, so that the submitter runs the callback itself, before the add. |
| `OffloadMachine.Machine.Execute` | vllm_custom_plugins/plugins/async_kv_offload/patch.py:117-200 | Every interleaving, carried out in place on the globals, ends in the state the protocol gives. |
| `OffloadMachine.Machine.SubmitTask` | vllm_custom_plugins/plugins/async_kv_offload/patch.py:117-200 | One uninterrupted call: it returns its future exactly when a slot is free and the executor accepts, counts itself once, and never leaks. |
| `OffloadStats.StatsCountSteps` | vllm_custom_plugins/plugins/async_kv_offload/patch.py:117-200 | In every run each statistic counts one kind of step: returned futures, give-ups, failed submissions and tasks, finished callbacks, drawn numbers. |
| `OffloadStats.HighWaterMark` | vllm_custom_plugins/plugins/async_kv_offload/patch.py:117-140 | In every run max_inflight is the largest pending count any slot check has seen, and 0 when none saw any. |
| `OffloadStats.PoolBound` | vllm_custom_plugins/plugins/async_kv_offload/patch.py:61-72 | In no run do more tasks occupy a worker than there are workers. |
| `OffloadStats.FirstInFirstOut` | vllm_custom_plugins/plugins/async_kv_offload/patch.py:155-186 | In every run tasks start in the order of submission, and the queue holds exactly those that have not started. |
| `SseStream.Decoder.DecodeChunk` | vllm_custom_plugins/plugins/security_patch/vllm/entrypoints/openai/server_utils.py:200-230 | The loop consumes buffer plus chunk line by line exactly as the specification does; an undecodable chunk changes nothing. |
| `SseStream.ChunkingDoesNotMatter` | vllm_custom_plugins/plugins/security_patch/vllm/entrypoints/openai/server_utils.py:200-230 | For every split into chunks, events and final buffer equal those of the whole text. |
| `SseStream.DrainLeavesNoNewline` | vllm_custom_plugins/plugins/security_patch/vllm/entrypoints/openai/server_utils.py:214-215 | The buffer left behind never contains a newline. |
| `SseStream.DrainLines` | vllm_custom_plugins/plugins/security_patch/vllm/entrypoints/openai/server_utils.py:214-230 | Text made of lines gives each line's event in order, and the unfinished line stays buffered. |
| `SseStream.LineEvents` | vllm_custom_plugins/plugins/security_patch/vllm/entrypoints/openai/server_utils.py:216-230 | What a line means: done exactly when it is a data line with nothing but [DONE] between blanks, event j exactly when it carries another non-empty text that parses to j, and nothing for every other line, malformed JSON included. |
| `SseStream.EveryTextIsLines` | vllm_custom_plugins/plugins/security_patch/vllm/entrypoints/openai/server_utils.py:214-215 | Every text is of that form. |
| `SseStream.CrLfIsLf` | vllm_custom_plugins/plugins/security_patch/vllm/entrypoints/openai/server_utils.py:216-216 | LF and CRLF endings mean the same. |
| `SseStream.RoundTrip` | vllm_custom_plugins/plugins/security_patch/vllm/entrypoints/openai/server_utils.py:200-230 | Events written as lines and cut into chunks anywhere are decoded to the same events. |
| `GraphSizes.SampleIsRepresentative` | vllm_custom_plugins/plugins/zero_interrupt/vllm_ascend/utils.py:644-653 | Under half-even rounding the sample is a strictly increasing subsequence of exactly the asked length that keeps the first and last size. |
| `GraphSizes.SampleIsNearest` | vllm_custom_plugins/plugins/zero_interrupt/vllm_ascend/utils.py:645-650 | Entry i of the sample is the size at the integer nearest to i * (n - 1) / (m - 1), the even one of two equally near. |
| `GraphSizes.SampleSizes` | vllm_custom_plugins/plugins/zero_interrupt/vllm_ascend/utils.py:645-653 | The index list, with its first and last entries overwritten, selects that sample. |
| `GraphSizes.CompilationConfig.UpdateCaptureSizes` | vllm_custom_plugins/plugins/zero_interrupt/vllm_ascend/utils.py:509-538 | When it raises, and what sizes and maximum it leaves. |
| `GraphSizes.CompilationConfig.UpdateAclGraphSizes` | vllm_custom_plugins/plugins/zero_interrupt/vllm_ascend/utils.py:541-672 | The whole update on the configuration object: it raises exactly when neither the configured sizes nor two fit the 1800 streams; otherwise all sizes are kept if they fit, and else the largest sample that does. The maximum capture size is kept, and after an exception the sizes stay cleared. |
| `GraphSizes.CapturesFitBudget` | vllm_custom_plugins/plugins/zero_interrupt/vllm_ascend/utils.py:573-672 | The kept sizes fit the 1800 streams, counted from the configuration: layers and draft layers, 40 and two more per unit for each of dp and tp above 1 without AIV, 100 for each context-parallel axis, and the AIV factors for dense and expert models. |
| `GraphSizes.MaximumIsExact` | vllm_custom_plugins/plugins/zero_interrupt/vllm_ascend/utils.py:573-633 | k graphs fit the 1800 streams, counted from the configuration, if and only if k is at most the computed maximum. |
| `GraphSizes.AdjustmentRaisesIff` | vllm_custom_plugins/plugins/zero_interrupt/vllm_ascend/utils.py:644-651 | The adjustment raises exactly when neither the configured sizes nor two graphs fit, keeps all sizes that fit, and otherwise drops no more than it must. |

## Left out

- Kernels, streams, events, graph capture and replay, process-group creation, sockets and logging: foreign calls and plumbing. Collectives are functions of all ranks' inputs.
- Floating point: the sampler's step is the exact quotient, activations are integers, and dequantisation (scale and offset after the gather) is not modelled.
- Tensor shapes: `VarlenGather` collapses the dimensions before and after the gathered one to their products, and `TensorDict` carries flat cells without dtype and shape.
- Weight loading and quantised weights: what a shard holds is a precondition.
- `reduce_results=False`, the even QKV branch, weight creation in the linear constructors, and a column-parallel layer that gathers its output. The group of a custom parallel operator is taken to be the TP group.
- `maybe_pad_and_reduce` is an all-reduce; its sequence-parallel variant is not part of this model.
- Logits gathering in `PatchLogitsProcessor`, and the earlier asymmetric embedding under `vllm/model_executor/layers`.
- Key-cache dtype and device copies of `swap_blocks`: a block move is exact.
- Duplicate valid slots or destinations: the result is one of the written rows, as PyTorch leaves open which; a slot beyond the cache is a precondition, since the code does not check it. The block moves ask for distinct key and value caches.
- `VocabEmbedding.VocabParallelEmbedding.Init`: asks for at most num_embeddings original embeddings, as the upstream layer's documentation does.
- Elastic expert parallelism and the commented-out code of `init_ascend_model_parallel_asym`; the P-TP and shard-weight groups.
- `sorted` is a stable insertion sort, and new_tp is a natural number.
- Same-node detection: the relation is given and is an equivalence; a failing probe is not modelled.
- In the offload protocol the timeout is a give-up step that may be taken after any failed check; `reset_stats`, thread-pool tuning and shutdown are left out, so the number of workers is fixed. Tasks start in the order of submission, and a worker keeps its task until the callback it found registered has run.
- UTF-8 and JSON: chunks come decoded or as None, and parsing is any function. `content_buffer` and the response logging around the decoder only collect strings.
- `TpShardings` above 8 ranks gives every rank one unit, as the code's fallback does; `QkvHeads.RebuildSizesThatFit` and `QkvHeads.ManyKvHeadsAlwaysFit` speak of the 8-unit sizes only.
- Authentication, licence checks, configuration validation, patch installation and the PD-rebuild handler: easy members or side effects only.
