# checkpoint-engine: a verified model

checkpoint-engine copies model weights from pinned host memory on *owner* ranks into every
inference worker. This project models the layout, scheduling and protocol code behind one update
and proves, in Dafny 4.11, what it promises. `dafny verify dfyconfig.toml` checks everything.

The model follows the path of the bytes:

| file | part of the system |
|---|---|
| `PinMemory.dfy`, `InplacePin.dfy`, `Registration.dfy` | packing registered tensors into pinned buffers, the concurrent copies, files pinned in place, and what registration leaves in memory |
| `MemoryPool.dfy`, `Naming.dfy` | memory pools, the shared pool, the table of remotely readable buffers, generated names |
| `BucketSize.dfy` | the bucket size: memory budget and alignment |
| `Layout.dfy`, `LayoutFacts.dfy`, `GreedyCut.dfy` | cutting each owner's memory into transfer buckets, described twice (ranges and items) |
| `Scheduler.dfy`, `Flattening.dfy`, `Rounds.dfy` | which rank fetches which bucket in a P2P update |
| `UpdateLoop.dfy`, `ScheduleQuality.dfy` | the loop that uses "the i-th bucket of each receiver", and how good the schedule is |
| `Planning.dfy` | the plan that every rank computes for itself, and why all ranks agree |
| `Transfer.dfy` | copying a bucket locally or over RDMA, the payload, extraction in the worker |
| `UpdateProtocol.dfy`, `UpdateInvariant.dfy`, `UpdateOutcome.dfy`, `WorkerLoop.dfy` | all ranks and workers with their sockets, collectives, staging buffers and double buffers, in every interleaving |
| `BucketContents.dfy`, `EndToEnd.dfy` | from registered checkpoints to the weights every worker loads |
| `StoreBarrier.dfy` | the reusable barrier over the key-value store and its key deletion |
| `SocketAddress.dfy` | the address counters of overlapping rank groups |
| `DataTypes.dfy`, `Sequences.dfy`, `Arithmetic.dfy` | the records, and shared facts about lists, permutations and division |

How the parts connect. `Registration.RegistrationStoresWeights` says what an owner's memory holds after
`Registration.RegisterCheckpoint`. `Planning.AgreedPlan` is a function of the reduced free memory and the
gathered metas and topologies: the bucket size of `BucketSize`, the buckets of `Layout`, and their
receivers (the owners themselves in a broadcast update, the scheduler's choice in a P2P update).
`Planning.PlanOnAllRanks` shows that every rank computes it. `EndToEnd.ConfigOf` turns the visits of the
update loop into a configuration of the protocol, with or without the h2d staging buffer, and
`EndToEnd.RegisteredWeightsArriveEverywhere` concludes: whatever the owners registered, every run that
cannot continue leaves each worker with exactly the registered parameters, each once, unless a worker
reported an error and everybody gave up.

Conventions. Python dictionaries whose order matters are lists of entries in insertion order. A
failing `assert` of the source is a `None` or a `false` result. Tensors are byte sequences with item
size and shape. In the protocol every step of a rank or a worker is atomic, an all-reduce is one
joint step of all ranks, a copy into the staging buffer is one step because it ends with a
synchronisation, and a broadcast writes undefined bytes from its start until the synchronisation. Store operations of the barrier are single atomic steps. Clocks, the network, the
torch and ZeroMQ libraries and the transfer engine appear only through their contracts.

Where code and documentation differ, the model follows the code:

- The docstring of `_assign_receiver_ranks` (checkpoint_engine/ps.py:116) says it uses the owner as
  receiver when there are no ranks; the code does that in its caller (checkpoint_engine/ps.py:101-103).
- The docstring of `register_checkpoint` (checkpoint_engine/ps.py:325-329) says the shared pool's shape
  is fixed; the code accepts a checkpoint that needs only the pool's first buffers, after which the
  table of registered buffers is wrong. `MemoryPool.RegisterKeepsGood` says exactly when it stays
  right, and `MemoryPool.ShrinkSharedPool` is an instance where it does not.
- Unregistering the shared pool's own name while another checkpoint, or none, uses it removes the
  pool for good (checkpoint_engine/ps.py:382-447). `MemoryPool.UnregisterKeepsGood` says that this is
  the only name for which the bookkeeping breaks, `MemoryPool.RemoveSharedPool` is an instance.
- The clean-up after a failed registration (checkpoint_engine/ps.py:374-380) also removes what an earlier
  checkpoint of that name registered; the condition in `MemoryPool.KeepsBooks` covers this.
- The reply to the last payload is read without being looked at (checkpoint_engine/ps.py:944), so the
  guarantees about failures are about the handle and all payloads but the last.
- Views of in-place pinned buffers need not be aligned to their item size
  (checkpoint_engine/pin_memory.py:244). `InplacePin.ViewIsAlignedWhen` gives the condition on the file's
  offsets, `InplacePin.MisalignedInplaceView` a file that fails it.

## Model

| member | source | states |
|---|---|---|
| PinMemory.AlignUpIsLeastMultiple | checkpoint_engine/pin_memory.py:26-27 | the aligned size is the least multiple of 256 that the tensor fits in |
| PinMemory.SlotIsLeastMultiple | checkpoint_engine/pin_memory.py:26-27 | a tensor's slot is the least multiple of 256 bytes that holds its bytes |
| PinMemory.PackTensors | checkpoint_engine/pin_memory.py:286-302 | the packing loop yields the buffers of the greedy cut in name order, each with its metas and its total size |
| PinMemory.EachTensorInOneBuffer | checkpoint_engine/pin_memory.py:286-302 | every tensor is in exactly one buffer, in order, and no buffer exceeds max(4 GiB, largest aligned tensor) |
| PinMemory.PackingIsGreedy | checkpoint_engine/pin_memory.py:286-302 | the buffers are the one split of the tensors, in name order, that begins a new buffer exactly when the next tensor would exceed max(4 GiB, largest tensor); none exceeds that, and two neighbouring ones together do |
| PinMemory.FewestBuffers | checkpoint_engine/pin_memory.py:286-302 | no order-preserving split into buffers of at most max(4 GiB, largest tensor) has fewer |
| PinMemory.StartsAreDisjoint | checkpoint_engine/pin_memory.py:350-359 | the places that the copy futures write to are disjoint |
| PinMemory.RunCopies | checkpoint_engine/pin_memory.py:326-361 | for every interleaving of the byte writes of all copy futures, each tensor ends up at the prefix sum of the aligned sizes before it |
| PinMemory.NormalPinMemory | checkpoint_engine/pin_memory.py:277-362 | packing, allocating and copying leaves all buffers of the packing with their tensors, for every interleaving of the copies |
| InplacePin.WalkHeader | checkpoint_engine/pin_memory.py:232-255 | the header walk succeeds if and only if the entries tile the data from 0 to its end, and then describes them |
| InplacePin.InplaceSlots | checkpoint_engine/pin_memory.py:235-247 | the slots computed from an in-place buffer's sizes are the tensors' real places in the file |
| InplacePin.FileHoldsTensors | checkpoint_engine/pin_memory.py:232-274 | a file pinned in place holds its parameters in those slots |
| InplacePin.FileWeightAt | checkpoint_engine/pin_memory.py:235-247 | the parameters of a file are its entries, with the bytes at their offsets |
| InplacePin.ViewIsAlignedWhen | checkpoint_engine/pin_memory.py:235-247 | in a bucket with a run of a file's entries, a view is aligned to its item size if and only if the file offsets of that entry and of the run's first differ by a multiple of it |
| InplacePin.FileBucketIsRun | checkpoint_engine/ps.py:77-93 | each bucket of an owner that pinned one file has such a run |
| InplacePin.MisalignedInplaceView | checkpoint_engine/pin_memory.py:235-247 | a file that the walk accepts and whose bucket gives the worker a misaligned view |
| Registration.RegisterCheckpoint | checkpoint_engine/pin_memory.py:365-401 | registration fails exactly if some header walk fails, and otherwise yields the checkpoint's metas and the memory that they describe |
| Registration.RegistrationStoresWeights | checkpoint_engine/pin_memory.py:365-401 | after registration the slots that buckets are cut from hold exactly the checkpoint's parameters, in order, however they were pinned |
| Registration.CheckpointWeightsAreAll | checkpoint_engine/pin_memory.py:365-401 | the checkpoint's parameters are all its tensors and all entries of all its files, in order, and nothing else |
| Registration.CheckpointSized | checkpoint_engine/pin_memory.py:304-307 | the buffers have the sizes that the gathered metas describe |
| Registration.NormalMetas | checkpoint_engine/pin_memory.py:295-302 | without in-place files all metas are aligned and no tensor exceeds its slot |
| MemoryPool.RegisterPinMemory | checkpoint_engine/pin_memory.py:309-324 | a shared pool's buffers are reused, in order, if and only if they exist and have the sizes; otherwise one new buffer per size |
| MemoryPool.P2PStore.RegisterNamedTensors | checkpoint_engine/p2p_store.py:51-59 | the table gains exactly the given names |
| MemoryPool.P2PStore.UnregisterNamedTensors | checkpoint_engine/p2p_store.py:61-71 | the table loses exactly the given names and their number is returned, or, if one is unknown, nothing changes |
| MemoryPool.ParameterServer.constructor | checkpoint_engine/ps.py:224-227 | the server starts with an empty shared pool, no user and an empty table |
| MemoryPool.ParameterServer.RegisterParameters | checkpoint_engine/ps.py:758-772 | the table gains the buffers of the checkpoint's pool, the shared one's under the shared name, unless looking up the pool fails |
| MemoryPool.ParameterServer.UnregisterParameters | checkpoint_engine/ps.py:774-786 | the table loses the names of the checkpoint's pool, unless the look-up or a name fails |
| MemoryPool.ParameterServer.Unregister | checkpoint_engine/ps.py:382-447 | for every name and force flag the new pools, user and table, or the error |
| MemoryPool.ParameterServer.CleanUp | checkpoint_engine/ps.py:374-380 | what the handler of a failed registration leaves |
| MemoryPool.ParameterServer.Register | checkpoint_engine/ps.py:338-380 | for every name, checkpoint, pool choice and outcome of loading the new pools, user and table, or the error after clean-up |
| MemoryPool.RegistrationSucceeds | checkpoint_engine/ps.py:338-372 | a registration succeeds if and only if its files can be read and: for its own pool, the name is new; for the shared pool, nobody uses it and it is empty, or has for every bucket a buffer at that index of exactly that size |
| MemoryPool.SharedBuffersHaveTheSizes | checkpoint_engine/pin_memory.py:309-324 | after a successful shared registration the pool has exactly one buffer per bucket, of its size: the first user's, or new ones; no other pool changes |
| MemoryPool.WrongSizesFail | checkpoint_engine/pin_memory.py:316-320 | a missing buffer or a different size at any index of a filled shared pool makes the registration fail |
| MemoryPool.OwnBuffersHaveTheSizes | checkpoint_engine/pin_memory.py:309-324 | after a successful registration of its own the checkpoint has one new buffer per bucket, and no other pool changes |
| MemoryPool.RegisterKeepsGood | checkpoint_engine/ps.py:338-380 | registering, successful or not, keeps pools and table in agreement if and only if a reused pool is used completely, a failure does not clean up a pool in use, and a new pool is registered under its own name |
| MemoryPool.FreshRegistration | checkpoint_engine/ps.py:338-372 | for fresh names at most one checkpoint uses the shared pool, a reused pool keeps its buffers, a failure changes nothing, and only incomplete reuse leaves a wrong table |
| MemoryPool.UnregisterKeepsGood | checkpoint_engine/ps.py:382-447 | unregistering keeps pools and table in agreement if and only if the name is not the shared pool's own, or is its user's |
| MemoryPool.ReleasedPoolIsReused | checkpoint_engine/ps.py:338-403 | releasing the shared pool and registering a checkpoint of the same shape hands over the same buffers under the same names |
| MemoryPool.UnregisterRemovesPool | checkpoint_engine/ps.py:405-447 | unregistering a checkpoint's own pool, or with force the shared one, removes exactly that pool's buffers and names and leaves all others |
| MemoryPool.StaleNamesStay | checkpoint_engine/ps.py:382-447 | a name without a buffer stays in the table whatever is unregistered |
| MemoryPool.ReusePool | checkpoint_engine/ps.py:348-360 | using a prefix of a registered pool leaves the table right exactly if the prefix is the whole pool |
| MemoryPool.ShrinkSharedPool | checkpoint_engine/ps.py:348-360 | two registrations, of checkpoints that take buffers of 4 GiB and 256 bytes and of 4 GiB, leave a name without a buffer |
| MemoryPool.RemoveSharedPool | checkpoint_engine/ps.py:382-447 | after unregistering the shared pool by its own name no checkpoint can use it |
| Naming.SocketPathIsInjective | checkpoint_engine/ps.py:660-661 | the address determines device and counter |
| Naming.PoolNameIsInjective | checkpoint_engine/ps.py:769-769 | the registered name determines pool and index, also when pool names contain the separator |
| Naming.KeyNameIsInjective | checkpoint_engine/ps.py:564-595 | the strings of different barrier keys differ |
| Naming.DecimalDenotes | checkpoint_engine/ps.py:660-661 | the decimal notation in all names reads back as the number and has no leading zeros |
| BucketSize.MaxTensorBytes | checkpoint_engine/ps.py:693-697 | the nested loops find the largest aligned size of all gathered metas |
| BucketSize.NoneIsLarger | checkpoint_engine/ps.py:693-697 | no gathered meta has a larger aligned size |
| BucketSize.SomeIsLargest | checkpoint_engine/ps.py:693-697 | some gathered meta has it, unless it is 0 |
| BucketSize.DetectBucketSize | checkpoint_engine/ps.py:669-719 | the bucket size and h2d choice are a function of the reduced memory, the metas and the configuration |
| BucketSize.DetectedSizeFits | checkpoint_engine/ps.py:698-719 | fails exactly if two buffers of the largest parameter do not fit; otherwise the size reaches the largest parameter, and the two or three buffers that are allocated fit into the free memory |
| BucketSize.DetectedSizeIsExact | checkpoint_engine/ps.py:698-719 | the size is max(configured maximum, largest parameter) if two or three buffers of that fit, else the greatest multiple of 256 of which they fit; the h2d buffer is given up only by configuration or when three buffers of the largest parameter do not fit |
| BucketSize.DetectedSizeIsGreatest | checkpoint_engine/ps.py:698-719 | no multiple of 256 up to the configured maximum that would fit is larger, and the h2d buffer is used whenever such a size allows it |
| BucketSize.DetectedSizeIsAligned | checkpoint_engine/ps.py:698-717 | for a configured maximum of whole GiB and aligned parameters it is a multiple of 256 |
| BucketSize.BudgetIsGreatest | checkpoint_engine/ps.py:698-712 | the budget is the greatest multiple of 256 of which two or three fit |
| BucketSize.AllocationFitsEveryRank | checkpoint_engine/ps.py:690-692 | what is allocated for the size computed from the reduced value fits on every rank of the group |
| BucketSize.LargestFits | checkpoint_engine/ps.py:717-717 | with such a bucket size the metas of every owner fit into buckets |
| BucketSize.PinnedMetasAreAligned | checkpoint_engine/pin_memory.py:295-302 | normally pinned parameters have aligned slots |
| BucketSize.ViewsAreLegal | checkpoint_engine/worker.py:48-49 | with aligned slots every payload offset in either half is a multiple of 256 and of the item size, and the slice ends inside its slot and inside the double buffer |
| GreedyCut.CutKeepsItems | checkpoint_engine/ps.py:79-93 | the packing rule loses, doubles and reorders nothing |
| GreedyCut.CutFits | checkpoint_engine/ps.py:82-92 | pieces stay within the capacity when the items do |
| GreedyCut.CutIsTheGreedySplit | checkpoint_engine/ps.py:82-92 | the packing rule yields the one split in order that begins a new piece exactly when the next item does not fit |
| GreedyCut.NeighboursExceed | checkpoint_engine/ps.py:82-92 | two neighbouring pieces together exceed the capacity |
| GreedyCut.CutBound | checkpoint_engine/ps.py:82-92 | two neighbouring pieces exceed the capacity, which bounds their number by 2 * total / capacity + 1 |
| GreedyCut.CutIsMinimal | checkpoint_engine/ps.py:82-92 | no order-preserving split within the capacity has fewer pieces, nor as many with a smaller last one |
| GreedyCut.LastPieceIsUsed | checkpoint_engine/ps.py:94-96 | the last piece is empty only if there is nothing to pack |
| Layout.PlaceMeta | checkpoint_engine/ps.py:82-92 | one step of the innermost loop: close the range and open a bucket, or extend the last one |
| Layout.PackBuffer | checkpoint_engine/ps.py:80-93 | the loop over one memory buffer, with its last range closed |
| Layout.PackOwner | checkpoint_engine/ps.py:77-93 | one owner's buckets are a function of its metas and the bucket size |
| Layout.BucketsArePacked | checkpoint_engine/ps.py:77-93 | they are the greedy cut of all the owner's slots across buffer borders, with items and ranges describing the same bytes, ranges coalesced and in bounds |
| Layout.EmptyRangesEndBuffers | checkpoint_engine/ps.py:83-93 | every memory buffer has the range that reaches its end, even if that is empty, and no other range is empty |
| Layout.GenH2DBuckets | checkpoint_engine/ps.py:75-96 | the bucket list, empty ranges included, is a function of the metas of all owners and the bucket size |
| Layout.GeneratedArePacked | checkpoint_engine/ps.py:75-96 | it lists the buckets of all owners in order |
| Layout.OwnersInOrder | checkpoint_engine/ps.py:77-78 | the buckets of an owner follow those of all earlier owners, in their own order |
| Layout.GeneratedSucceeds | checkpoint_engine/ps.py:94-96 | the assertion fires exactly for an owner whose last bucket stays empty |
| Layout.CheckFailsOnlyWithoutBytes | checkpoint_engine/ps.py:94-96 | when the metas fit, the assertion fires only for an owner without any bytes |
| LayoutFacts.BucketsPartitionOwner | checkpoint_engine/ps.py:77-96 | the items of an owner's buckets are its metas in order, and the ranges name every byte of every memory buffer once, in order |
| LayoutFacts.RangesFillBucket | checkpoint_engine/ps.py:733-748 | the range sizes of a bucket add up to its size, so the copy loop's assertions hold |
| LayoutFacts.BucketsFit | checkpoint_engine/ps.py:79-93 | no bucket exceeds the bucket size |
| LayoutFacts.FewestBuckets | checkpoint_engine/ps.py:79-93 | no order-preserving split of an owner's slots needs fewer buckets |
| LayoutFacts.BucketBound | checkpoint_engine/ps.py:79-93 | at most 2 * total / bucket size + 1 buckets per owner |
| LayoutFacts.ItemPosition | checkpoint_engine/ps.py:35-48 | the k-th item's bytes in the concatenated ranges start at the prefix sum of the earlier aligned sizes |
| Layout.NumelOfProduct | checkpoint_engine/worker.py:48-48 | the number of elements is the product of all dimensions |
| Flattening.FlattenedIsRoundRobin | checkpoint_engine/ps.py:138-145 | reading the ragged matrix column by column, a device that repeats is followed only by devices that repeated since |
| Flattening.CoordsFacts | checkpoint_engine/ps.py:138-145 | every place of the ragged matrix is read exactly once, column by column and from the first row down |
| Flattening.FlattenReadAt | checkpoint_engine/ps.py:138-145 | the flattened list holds what the matrix has at those places |
| Flattening.FirstColumn | checkpoint_engine/ps.py:138-145 | every row is read once before any is read again |
| Flattening.RowSurvives | checkpoint_engine/ps.py:138-145 | flattening keeps each sender device's buckets in order |
| Rounds.RoundLengthsNeverIncrease | checkpoint_engine/ps.py:147-161 | on such a sequence the greedy rounds never get longer |
| Rounds.RoundsTile | checkpoint_engine/ps.py:150-161 | the rounds are consecutive and non-empty, and no round uses a device twice or more receivers than there are |
| Rounds.GreedyStaysAhead | checkpoint_engine/ps.py:150-161 | no cut into consecutive device-distinct rounds has fewer rounds than the greedy one |
| Scheduler.GroupByDevice | checkpoint_engine/ps.py:126-129 | the buckets filed by sender device, devices in order of first appearance |
| Sequences.FirstSeenInOrder | checkpoint_engine/ps.py:126-129 | the order of the groups is the order in which their keys first appear |
| Scheduler.RanksHaveTheirDevice | checkpoint_engine/ps.py:122-124 | for disjoint groups the map gives every rank of every group that group's device, and holds no other rank |
| Scheduler.DeviceOfRank | checkpoint_engine/ps.py:122-124 | a rank of several groups has the device of the last one |
| Scheduler.RestrictedAt | checkpoint_engine/ps.py:97-100 | the restricted topology is, in order, each group that shares a rank with the update, cut down to the shared ranks |
| Scheduler.ReceiverCount | checkpoint_engine/ps.py:136-136 | the receivers are as many as there are local groups or distinct sender devices, whichever is less |
| Scheduler.FillRound | checkpoint_engine/ps.py:150-161 | one pass of the outer loop hands out the longest device-distinct run, at least one bucket |
| Scheduler.AssignInRounds | checkpoint_engine/ps.py:147-163 | the assignment loop terminates and hands out everything round by round |
| Scheduler.AssignReceiverRanks | checkpoint_engine/ps.py:108-163 | the whole assignment, proved against its specification function |
| UpdateLoop.ReceiversInUse | checkpoint_engine/ps.py:134-161 | exactly min(local groups, sender devices) receivers are used, and the k-th is the least rank of the k-th local group |
| Scheduler.ReceiversAreDistinct | checkpoint_engine/ps.py:134-136 | receivers are pairwise distinct, so they are in every round |
| Scheduler.AssignmentIsPermutation | checkpoint_engine/ps.py:108-163 | without the receivers the assignment is a permutation of the input |
| Scheduler.AssignmentKeepsSenderOrder | checkpoint_engine/ps.py:126-145 | within each sender device the assignment keeps the input order |
| Scheduler.ReceiversAreUpdated | checkpoint_engine/ps.py:97-105 | every receiver is one of the ranks being updated |
| Scheduler.BucketsOfReceiver | checkpoint_engine/ps.py:147-161 | a receiver takes part in a prefix of the rounds, and its i-th bucket is its bucket of round i |
| UpdateLoop.GroupByReceiver | checkpoint_engine/ps.py:872-877 | the lists per receiver and the length of the longest |
| UpdateLoop.RunStep | checkpoint_engine/ps.py:900-942 | in step i a rank broadcasts the bucket that it staged at the start of the step, or without staging copies, and this is the bucket whose turn it is |
| UpdateLoop.RunUpdateLoop | checkpoint_engine/ps.py:856-942 | every rank goes through the same sequence of broadcasts in the same steps, and what it sends is its own buckets in order |
| UpdateLoop.VisitedBucketIsFetched | checkpoint_engine/ps.py:892-899 | a bucket visited in step i is the i-th that its receiver fetched |
| UpdateLoop.EveryBucketIsVisitedOnce | checkpoint_engine/ps.py:892-942 | the nested loop visits every bucket exactly once, for every list of buckets |
| UpdateLoop.VisitsGoStepByStep | checkpoint_engine/ps.py:892-942 | the loop finishes a step before it begins the next |
| UpdateLoop.LoopFollowsSchedule | checkpoint_engine/ps.py:892-942 | on a P2P schedule the loop, which never sees the rounds, visits the buckets in the scheduler's order |
| UpdateLoop.FetchesDoNotConflict | checkpoint_engine/ps.py:892-899 | the i-th buckets of different receivers, fetched together, come from different sender devices |
| Planning.PlanUpdate | checkpoint_engine/ps.py:68-105 | the plan is a function of the metas, bucket size, topologies and ranks: the owners' own buckets, or the scheduler's assignment on the restricted topology |
| Planning.PlanCovers | checkpoint_engine/ps.py:97-105 | every bucket of every owner is planned exactly once, for its owner or for one of the ranks being updated |
| Planning.PlanSucceeds | checkpoint_engine/ps.py:94-96 | with such a bucket size planning fails only for an owner without bytes |
| Planning.LoopFollowsPlan | checkpoint_engine/ps.py:892-942 | on the plan of a P2P update the loop visits the buckets in the scheduler's order |
| Planning.PlannedFetchesDoNotConflict | checkpoint_engine/ps.py:892-899 | in every step of a planned P2P update, the groups of the remote topology that the owners of the buckets fetched together belong to have different devices |
| Planning.PlannedOwnersHaveGroups | checkpoint_engine/ps.py:122-124 | every owner in a P2P plan is in a group of the remote topology |
| Planning.PlannedReceivers | checkpoint_engine/ps.py:97-137 | the receivers of a P2P update are the least ranks being updated of the first local groups that have one, as many as there are such groups or sender devices |
| Planning.PlanOnAllRanks | checkpoint_engine/ps.py:841-942 | all ranks of the group come to the same bucket size, bucket list, steps and sequence of broadcasts, or all fail, and each sends its own buckets |
| ScheduleQuality.StepsAreMinimal | checkpoint_engine/ps.py:147-161 | with R = min(local groups, sender devices), the number of steps is the least among all cuts of the flattened list into rounds of at most R buckets with distinct devices |
| ScheduleQuality.StepsBound | checkpoint_engine/ps.py:872-877 | R * steps lies between N and N + L * (R - 1) for N buckets, R = min(local groups, sender devices) and L buckets of the busiest sender |
| ScheduleQuality.EvenSendersFillSteps | checkpoint_engine/ps.py:872-877 | with equally many buckets per sender device the steps are ceil(N / R), R = min(local groups, sender devices) |
| ScheduleQuality.AnyScheduleIsLong | checkpoint_engine/ps.py:147-161 | every conflict-free schedule needs N / R and L rounds at least |
| ScheduleQuality.NoneIsBusier | checkpoint_engine/ps.py:126-129 | no sender device has more than L buckets |
| ScheduleQuality.BusiestSenderIsASender | checkpoint_engine/ps.py:126-129 | some sender device has L |
| ScheduleQuality.GreedyIsNearOptimal | checkpoint_engine/ps.py:147-161 | the schedule has at most 2 - 1/R times the rounds of any conflict-free schedule on R = min(local groups, sender devices) receivers |
| Transfer.CopyToBuffer | checkpoint_engine/ps.py:721-748 | a local copy fails exactly if the range sizes do not add up, and otherwise writes the bucket's bytes at the start of the view and nothing else |
| Transfer.CollectReads | checkpoint_engine/ps.py:728-750 | the batch names, range by range, where to read and where to put it |
| Transfer.BatchRead | checkpoint_engine/p2p_store.py:73-78 | a batch of permitted reads leaves what executing them in order leaves |
| Transfer.ReadsArePermitted | checkpoint_engine/ps.py:728-753 | every collected read stays inside the owner's registered buffers and inside the view |
| Transfer.ReadsCopyRanges | checkpoint_engine/ps.py:736-750 | reading the collected addresses leaves the same bytes as copying the ranges locally |
| Transfer.CopyFromOwner | checkpoint_engine/ps.py:721-756 | a remote copy leaves the same bytes as a local copy on the owner |
| Transfer.ToNamedTensor | checkpoint_engine/ps.py:35-48 | the payload places every item at the prefix sum of the earlier aligned sizes |
| Transfer.ExtractWeights | checkpoint_engine/worker.py:39-51 | the worker's loop takes one slice of item size * element count bytes per payload entry |
| Transfer.ExtractedIsStored | checkpoint_engine/worker.py:39-51 | if the buffer holds the bytes that the ranges describe, the worker extracts by the items exactly the stored parameters |
| UpdateProtocol.RankKeepsTalk | checkpoint_engine/ps.py:886-969 | every step of a rank keeps the counts, the script and the alternation of requests and replies |
| UpdateProtocol.WorkerKeepsTalk | checkpoint_engine/worker.py:67-123 | every step of a worker keeps them |
| UpdateProtocol.FailedAttachIsNoticed | checkpoint_engine/worker.py:73-77 | a worker that failed to attach is next sent the failure notice |
| UpdateInvariant.RankKeepsBuffer | checkpoint_engine/ps.py:913-936 | staging and synchronising keep every bucket in the buffer that may still be read |
| UpdateInvariant.RankKeepsStaging | checkpoint_engine/ps.py:892-899 | only the copy at the start of a step changes the staging buffer |
| UpdateInvariant.StagedIsContent | checkpoint_engine/ps.py:916-926 | what the source copies into the shared buffer, from the staging buffer or directly, is the bucket whose turn it is |
| UpdateInvariant.SourceIsReady | checkpoint_engine/ps.py:916-936 | when a rank takes over a broadcast the source's half still holds the bucket |
| UpdateInvariant.AllReduceKeepsInv | checkpoint_engine/ps.py:935-937 | at an all-reduce all ranks are at the same bucket and learn the same outcome, which some worker caused if it is a failure |
| UpdateInvariant.RunsKeepInv | checkpoint_engine/ps.py:886-969 | the invariant of all ranks and workers holds after every run |
| UpdateOutcome.DoubleBufferSafety | checkpoint_engine/ps.py:913-942 | while a worker reads a bucket no broadcast into that half is in flight, and the half holds exactly that bucket |
| UpdateOutcome.StagingHoldsBucket | checkpoint_engine/ps.py:892-936 | from the copy at the start of a step until the end of the source's turn its staging buffer holds exactly that bucket |
| UpdateOutcome.SocketDiscipline | checkpoint_engine/ps.py:886-969 | both sides alternate send and receive, and never both wait with nothing in transit |
| UpdateOutcome.ExchangesFollowScript | checkpoint_engine/worker.py:67-123 | a worker hears handle, payloads in order, release, hook, up to a failure notice, and every call of run finds its bucket |
| UpdateOutcome.ReleaseMeansAllWell | checkpoint_engine/ps.py:937-950 | a worker is told to release only after every worker answered the handle and every payload but the last without error |
| UpdateOutcome.StepsMakeProgress | checkpoint_engine/ps.py:886-969 | every step uses up part of a bounded measure |
| UpdateOutcome.RunsTerminate | checkpoint_engine/ps.py:886-969 | no run of N ranks and n buckets has more than N * (7 n + 12) steps |
| UpdateOutcome.FinalStates | checkpoint_engine/ps.py:928-944 | no deadlock: a run that cannot continue has delivered everything in n + 3 exchanges per rank, or all ranks raised after the same message, which a worker had answered with an error, and all workers stopped by raising |
| UpdateOutcome.CheckedRepliesDecide | checkpoint_engine/ps.py:928-944 | everything is delivered if and only if no reply to the handle or a payload but the last is an error |
| UpdateOutcome.HealthyRunsDeliver | checkpoint_engine/ps.py:886-969 | if no worker fails, everything is delivered everywhere |
| UpdateOutcome.FailuresAreNoticed | checkpoint_engine/worker.py:73-112 | if a worker fails to attach, or fails on any payload but the last, every run that cannot continue has everybody given up |
| WorkerLoop.UpdateWeightsFromIpc | checkpoint_engine/worker.py:54-123 | the receive loop as written has the replies, the calls of run and the ending of the protocol's worker, for every sequence of requests |
| EndToEnd.CopyBucket | checkpoint_engine/ps.py:721-751 | the copy on a rank, from the owner or from its own memory, writes exactly the bucket's bytes |
| EndToEnd.PlannedCopiesSucceed | checkpoint_engine/ps.py:733-748 | copying a planned bucket reads only registered memory, fits, and no assertion of the copy fires |
| EndToEnd.FetchIsCopy | checkpoint_engine/ps.py:893-899 | the protocol's fetch step is that copy of the rank's bucket for the step into the staging buffer |
| EndToEnd.DirectStageIsCopy | checkpoint_engine/ps.py:916-924 | without staging, the protocol's stage step is that copy into the half of the shared buffer |
| BucketContents.BucketIsExtracted | checkpoint_engine/worker.py:39-51 | wherever a bucket is placed, the worker extracts its parameters |
| BucketContents.WeightsInPermute | checkpoint_engine/ps.py:892-942 | the weights carried do not depend on the order of the buckets |
| EndToEnd.CopyIsContent | checkpoint_engine/ps.py:893-926 | whichever way the source copies, it gets the bytes that the owner holds for the bucket being broadcast |
| EndToEnd.PlanIsValid | checkpoint_engine/ps.py:841-884 | a planned update meets what the protocol needs, in both modes, with and without the staging buffer |
| EndToEnd.EveryWorkerLoadsEverything | checkpoint_engine/ps.py:892-942 | when all buckets of a plan are delivered, a worker has loaded what all owners hold, each parameter once, with its bytes |
| EndToEnd.UpdatePreservesWeights | checkpoint_engine/ps.py:788-969 | for every plan, both modes, with or without the staging buffer and in every interleaving: a run that cannot continue leaves each worker with exactly what the owners hold, unless a worker reported an error and everybody gave up |
| EndToEnd.HealthyUpdatesDeliver | checkpoint_engine/ps.py:928-944 | if no worker fails, nobody gives up |
| EndToEnd.RegisteredWeightsArriveEverywhere | checkpoint_engine/ps.py:788-969 | from the registered checkpoints, the detected bucket size and the agreed plan to the workers: each loads exactly the registered parameters of all owners, unless a worker reported an error and everybody gave up |
| EndToEnd.PlannedItemsAreAligned | checkpoint_engine/ps.py:79-93 | the items of every planned bucket of normally pinned owners are aligned and fill at most the bucket size |
| EndToEnd.PlannedViewsAreLegal | checkpoint_engine/worker.py:48-49 | every view that a worker takes of normally pinned parameters is legal |
| StoreBarrier.StepKeepsInv | checkpoint_engine/ps.py:564-595 | every atomic step of every rank keeps the barrier's invariant |
| StoreBarrier.BarrierSafety | checkpoint_engine/ps.py:564-573 | no rank leaves a generation before all have entered it |
| StoreBarrier.DeletedKeysAreUnused | checkpoint_engine/ps.py:575-595 | a deleted key is never added to, read, set, waited for or deleted again |
| StoreBarrier.DeletionsFindTheirKeys | checkpoint_engine/ps.py:597-604 | every deleted key exists |
| StoreBarrier.FewGenerations | checkpoint_engine/ps.py:578-584 | all keys belong to the generations from two before to one after rank 0's |
| StoreBarrier.WaitersAreReleased | checkpoint_engine/ps.py:567-573 | when all have entered, a waiting rank can go on or the last worker is about to announce itself |
| StoreBarrier.NoDeadlock | checkpoint_engine/ps.py:564-573 | when all ranks call the barrier equally often, none is left waiting |
| StoreBarrier.QuietStore | tests/test_store_barrier.py:53-62 | when all have left generation n, exactly the keys of the last two generations remain, with the full count and the mark |
| SocketAddress.Addressing.Update | checkpoint_engine/ps.py:659-692 | all participants of an update use the same counter and compute the same path for every rank, which is the one that rank binds |
| SocketAddress.Addressing.Reduce | checkpoint_engine/ps.py:685-692 | the minimum of the negated counters is the group's largest counter |
| SocketAddress.MaxIsAttained | checkpoint_engine/ps.py:685-692 | that counter is one that some rank of the group has |
| SocketAddress.Addressing.NeverBoundTwice | checkpoint_engine/ps.py:659-667 | over all updates of all overlapping groups no address is bound twice |

## Left out

- Device memory, IPC handles, pin and unpin calls, streams: foreign code. A buffer is a byte array, and the device copy from the staging buffer to the shared buffer takes effect where it is issued, in stream order before the broadcast.
- torch.distributed, ZeroMQ, the TCP store and the transfer engine: only the contracts named above.
- MemoryPool.P2PStore.RegisterNamedTensors: does not model the engine's own table of addresses and capacities, whose registration is taken to succeed.
- MemoryPool.P2PStore.UnregisterNamedTensors: does not model the engine's own table either; names are passed without repetition, as the callers do.
- Timeouts, crashed processes, a `post_hook` that raises, and the final `dist.barrier` in the `finally` block, which all ranks reach together in both kinds of final states.
- File parsing: tensor-parallel and `.npy` loading, the JSON part of safetensors headers. The header walk starts from entries whose end is not before their start, and whose tensors are not larger than their place.
- Sorting parameters by name: `PackTensors` takes them in that order.
- The concurrent allocation of pinned buffers: each is independent, and only the copies into them interleave in the model.
- A parameter server without a P2P store, and the temporary registration of the update buffer.
- SocketAddress.Addressing.Update: one update is one atomic step on the counters; updates of disjoint groups do not interleave inside it.
- BucketSize.DetectBucketSize: free memory and the configured maximum are whole bytes; the floating-point products that yield them are inputs.
- Planning.PlanOnAllRanks: all ranks hold the same gathered metas, topologies and configuration; gathering them is not modelled.
- `load_metas`, `gather_metas`, choice of RDMA devices, `split_checkpoint_files`, HTTP API, command line, logging, memory statistics: plumbing that would add only easy members.
