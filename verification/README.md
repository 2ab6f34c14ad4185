# Verified models of the memory planner, the graph partitioner and the serializers

This project models five components of the repository in Dafny and proves what each of them is for.

* **Arena memory planner** (`arena_planner.cc` over `simple_memory_arena.cc`). Tensor lifetimes come from reference
  counting over an execution plan; tensors are then packed into two shared blocks by a search for gaps between the
  allocations whose usage intervals meet. An interpreter plans one range of nodes at a time and runs it before it
  plans the next, so blocks grow while tensors hold data. The main results: whatever the operators compute, and
  however the plan is cut into ranges, the bytes of the shared arena hold what the buffers hold, those shared by
  operators that work in place included; and whatever is used of them is what private storage would hold, for all
  operators, if and only if no node overwrites contents that are used later. Graphs that the guards for sharing let pass and that fail this
  condition, or lose a tensor, are given.
* **Graph partitioner** (`graph_info.cc`). A nested fixpoint loop sorts nodes into subsets of one type under data and
  control dependencies. The main results: every node is scheduled exactly once if and only if the dependencies have
  no cycle, running the subsets computes the same values, their interfaces are exact, and greedy partitioning needs
  no more subsets than any rival.
* **FlexBuffers** (`flexbuffers.h`). A bottom-up serializer with relative offsets of variable width, a stack of
  values, pools of keys and strings, and sorted maps. The main results: what is built reads back as that tree and as
  no other, the chosen widths suffice, and map lookup agrees with the association list.
* **FlatBuffers** (`vector_downward.h`, `flatbuffer_builder.h`, `table.h`, `verifier.h`). Two stacks share one growing
  buffer; the table builder runs on top of them and takes a vtable back when an older one has the same bytes. The main
  results: every field of every table and every vector reads back after any later calls, the verifier accepts exactly
  the buffers that pass its checks and those can be read without leaving the buffer, and it accepts what the builder
  finishes.
* **Scratchpad allocator and stochastic rounding** (`fixedpoint.h`). First fit with linked headers inside one buffer,
  splitting and merging on both sides; rounding on the bits of binary32 numbers (section 3.4 of IEEE 754-2008). The
  main results: blocks tile the buffer and live payloads are never touched, releasing everything restores the initial
  block, and rounding yields a neighbour with the right sign, exactly for the numbers in range, and is exactly unbiased
  over all noise values.

The source's objects are classes whose methods change their fields, each method specified by a function of the old
state; the properties are lemmas about these functions and about `Valid()`. Addresses are numbers or offsets, bytes
are integers below 256, and sizes are natural numbers with the source's limits written out where they matter.
Operators, allocators outside the scratchpad and the order of `std::sort` among equal elements are parameters or
arbitrary choices.

`dafny verify dfyconfig.toml` checks the whole project. One file holds one module; `Bytes`, `Arithmetic`,
`LittleEndian` and `Graphs` are shared.

## Model

| member | source | states |
|---|---|---|
| MemoryArena.PlaceIsSafe | include/tensorflow/lite/simple_memory_arena.cc:253-276 | The offset the gap search chooses is aligned, and its range is disjoint from every active allocation alive at a common node, even if active allocations overlap each other |
| MemoryArena.PlacePastTheEndOnlyIfNoHoleFits | include/tensorflow/lite/simple_memory_arena.cc:253-276 | A tensor goes past all conflicting allocations only if no aligned free range starts at a smaller offset |
| MemoryArena.PurgeIsNeutral | include/tensorflow/lite/simple_memory_arena.cc:205-218 | For every later sequence of requests from the node on, the arena with purged entries hands out the same offsets and reaches the same high-water mark |
| MemoryArena.LayoutAllocate | include/tensorflow/lite/simple_memory_arena.cc:233-285 | Serving one more request keeps the layout: entries sorted, all tensors aligned below the high-water mark and disjoint whenever their intervals meet |
| MemoryArena.SimpleMemoryArena.Allocate | include/tensorflow/lite/simple_memory_arena.cc:233-285 | Fails exactly for an alignment above that of the buffer; otherwise the active list, the mark and the new allocation are those of the specification, and zero-sized tensors take no space |
| MemoryArena.SimpleMemoryArena.PurgeActiveAllocs | include/tensorflow/lite/simple_memory_arena.cc:205-218 | Marking and erasing leaves exactly the entries alive at the node or later, in order |
| MemoryArena.ResizableAlignedBuffer.Resize | include/tensorflow/lite/simple_memory_arena.cc:152-174 | Growing keeps the old contents as a prefix; a buffer that is large enough stays where it is |
| MemoryArena.SimpleMemoryArena.Commit | include/tensorflow/lite/simple_memory_arena.cc:287-294 | The block reaches the high-water mark, keeps its contents, and reports whether it moved |
| Lifetimes.DeallocExact | include/tensorflow/lite/arena_planner.cc:302-333 | A buffer is released by node l if and only if tensors are not preserved, it is neither given nor an output, l is its last use through any alias, and a node up to l writes it |
| Lifetimes.DeallocAfterLastConsumer | include/tensorflow/lite/arena_planner.cc:302-333 | No buffer is released before the last node that reads it, through whichever alias |
| Lifetimes.PinnedNeverDeallocated | include/tensorflow/lite/arena_planner.cc:241-270 | Graph inputs, outputs and variables are never released |
| Lifetimes.SharedIdempotent | include/tensorflow/lite/arena_planner.cc:97-103 | Following the alias map twice leads where following it once does |
| Lifetimes.LifetimeCoversAliases | include/tensorflow/lite/arena_planner.cc:157-202 | The usage interval of a shared buffer covers every node that reads or writes any tensor sharing it |
| Lifetimes.WithoutSharing | include/tensorflow/lite/arena_planner.cc:144-181 | No alias is recorded when no operator is registered to work in place, or when all tensors are to be preserved |
| Planning.ArenaPlanner.IdentifyInPlaceTensors | include/tensorflow/lite/arena_planner.cc:157-202 | The loop with its guards records exactly the aliases of the specification |
| Planning.ArenaPlanner.PlanAllocations | include/tensorflow/lite/arena_planner.cc:204-337 | Never fails a consistency check, and computes for every tensor its reference count, alias, allocation node, release node and queue |
| Planning.ArenaPlanner.CalculateAllocations | include/tensorflow/lite/arena_planner.cc:487-564 | Exactly the tensors of the range that need bytes get them, others keep theirs, and all placements are disjoint whenever their intervals meet |
| Planning.ArenaPlanner.ResolveTensorAllocation | include/tensorflow/lite/arena_planner.cc:580-612 | The data pointer is the tensor's offset in the current block, or its owner's pointer when both are in one arena; no right pointer becomes wrong |
| Planning.ArenaPlanner.ExecuteAllocations | include/tensorflow/lite/arena_planner.cc:339-382 | Called on consecutive ranges it never fails, keeps earlier allocations and the contents of both blocks, and leaves every planned tensor's pointer in the current block, that of an alias at the bytes of its owner |
| Planning.ArenaPlanner.BytesIffNoneLost | include/tensorflow/lite/arena_planner.cc:522-560 | Between ranges, every planned arena tensor has bytes of its own or those of its owner if and only if no persistent tensor is an alias whose owner could hold it |
| InPlaceSharing.AliasOrigin | include/tensorflow/lite/arena_planner.cc:157-202 | Every alias was recorded by the node that writes it, as its first output, from an input that passes the guards, and leads to the owner of that input's buffer |
| InPlaceSharing.TransparentIffUndisturbed | include/tensorflow/lite/arena_planner.cc:157-202 | For every graph, what nodes and the caller use in shared buffers is what private storage gives, for all operators, if and only if no node puts new contents into a buffer whose other tensor is used later |
| InPlaceSharing.GuardsAreNotEnough | include/tensorflow/lite/arena_planner.cc:105-142 | The guards do not ensure that condition: the graph `Chain`, with two reshapes, a change in place of the second result and a later use of the first, passes them, and some operators make the use see the change |
| ArenaExecution.WriteKeeps | include/tensorflow/lite/arena_planner.cc:339-382 | Under a sound plan, writing a live tensor in the shared block changes no other live tensor |
| ArenaExecution.RunNodeRefines | include/tensorflow/lite/core/subgraph.cc:1711-1765 | Given a plan that is sound for the nodes planned so far, a node run on the arena's bytes reads and produces what it does when each buffer is one entry of a store, aliases included, and every owner still held agrees afterwards |
| ArenaExecution.Grown | include/tensorflow/lite/arena_planner.cc:339-382 | Planning further nodes and growing the blocks keeps every held tensor's contents |
| ArenaExecution.AliasIsNotReleased | include/tensorflow/lite/arena_planner.cc:302-333 | A tensor recorded as an alias is never released, also when it gets bytes of its own, because its uses are counted for another tensor |
| ArenaExecution.PersistentAliasIsLost | include/tensorflow/lite/arena_planner.cc:530-543 | The guards for sharing let a persistent tensor become an alias that is left without bytes: `Chain` with such a tensor is a graph in which it happens |
| ArenaExecution.Interpreter.Invoke | include/tensorflow/lite/core/subgraph.cc:1657-1765 | Planning and running consecutive ranges leaves in the bytes of every owner not yet released what its buffer holds after all nodes |
| ArenaExecution.PlanAndInvoke | include/tensorflow/lite/core/subgraph.cc:1596-1606 | For every graph in dependency order that loses no alias, every operator, alignment and division into ranges: the bytes of the arena hold what the buffers hold, shared ones included; if no node overwrites contents that are used later, all graph outputs, inputs and variables end with the contents of private storage |
| ArenaExecution.NothingIsDisturbed | include/tensorflow/lite/arena_planner.cc:157-202 | A graph in which planning records no alias loses none and overwrites nothing that is used, whatever its operators promise |
| GraphExecution.AnyScheduleComputesTheSame | include/tensorflow/lite/core/subgraph.cc:1657-1765 | Every order of the nodes that respects what they read and write computes the same contents in every tensor |
| Partitions.JoinKeepsLegal | include/tensorflow/lite/graph_info.cc:168-209 | Assigning a node that may join keeps subsets of one type, nodes assigned once, and every node after all it depends on |
| Partitions.FilledIsBuilt | include/tensorflow/lite/graph_info.cc:213-230 | A subset that nothing more can join is complete: in greedy mode no later node of its type could have been in it |
| PartitionTheorems.EveryNodeIsScheduledIffAcyclic | include/tensorflow/lite/graph_info.cc:64-118 | The concatenated subsets respect every dependency and hold no node twice, and they hold every node if and only if the dependencies have no cycle |
| PartitionTheorems.PartitionPreservesValues | include/tensorflow/lite/graph_info.cc:64-118 | Running the subsets one after the other computes, in every tensor, what the original plan computes |
| PartitionTheorems.SubsetsAlternate | include/tensorflow/lite/graph_info.cc:213-230 | With fusion, consecutive greedy subsets are of different types |
| PartitionTheorems.GreedyIsOptimal | include/tensorflow/lite/graph_info.cc:135-230 | Against any dependency-respecting partition that starts with the same type, every node is at least as early and there are at most as many subsets; one that starts with the other type gains at most one |
| PartitionTheorems.OrderIsKept | include/tensorflow/lite/graph_info.cc:213-230 | Without fusion or not greedily, a graph in dependency order keeps its order, and neighbours share a subset exactly when fusion is on and they are of one type |
| PartitionTheorems.StatefulNodesKeepTheirOrder | include/tensorflow/lite/graph_info.cc:274-288 | When consecutive operators with side effects are chained, they run in their original order |
| Partitioning.ReadinessIsTested | include/tensorflow/lite/graph_info.cc:146-156 | The tests on tensor epochs and incoming edges hold if and only if everything the node depends on is assigned |
| Partitioning.PendingDrops | include/tensorflow/lite/graph_info.cc:196-207 | Assigning a node lowers the count of each node its control edges lead to by one, and no other count |
| Partitioning.InterfacesAreExact | include/tensorflow/lite/graph_info.cc:101-117 | With the recorded imports and exports and the graph outputs, each subset's inputs are exactly what it reads and does not produce, and its outputs what it produces that another subset or the graph needs, sorted and without duplicates |
| Partitioning.ChainIsAcyclic | include/tensorflow/lite/graph_info.cc:274-288 | Without explicit control edges a graph in dependency order has no cycle, so everything is scheduled |
| Partitioning.SideEffectChain | include/tensorflow/lite/graph_info.cc:274-288 | The edges are exactly those between consecutive operators with side effects |
| Partitioning.Partitioner.LowerBound | include/tensorflow/lite/graph_info.cc:199-202 | Bisection finds the first control edge that is not below the key |
| Partitioning.Partitioner.UpdateNode | include/tensorflow/lite/graph_info.cc:135-211 | The node joins the last subset if and only if it may; epochs, counters and interfaces then follow the extended plan |
| Partitioning.Partitioner.BuildNodeSubset | include/tensorflow/lite/graph_info.cc:213-230 | The loop terminates, with an empty subset only if no node can join |
| Partitioning.Partitioner.Partition | include/tensorflow/lite/graph_info.cc:64-118 | From any earlier state, ends with a finished partition whose subsets have exact interfaces |
| Partitioning.PartitionGraphIntoIndependentNodeSubsets | include/tensorflow/lite/graph_info.cc:269-295 | Types come from the list of nodes, control edges are those given or the chain of stateful nodes, every node is scheduled once after all it depends on, and the subsets describe that schedule exactly |
| LittleEndian.UnsignedRoundTrip | include/flatbuffers/flexbuffers.h:1539-1544 | Reading back the low bytes of a number gives it modulo the range of the width, negative numbers included |
| FlexScalars.WidthUIsLeast | include/flatbuffers/flexbuffers.h:195-205 | The width chosen for an unsigned value is the least that holds it |
| FlexScalars.WidthIIsLeast | include/flatbuffers/flexbuffers.h:207-210 | The width chosen for a signed value is the least with its two's complement form |
| FlexScalars.WidthTest | include/flatbuffers/flexbuffers.h:1645-1659 | Testing each width for equality finds the least sufficient one, and one of them always matches |
| FlexScalars.OffsetStillFits | include/flatbuffers/flexbuffers.h:1636-1663 | The width chosen for an offset suffices in any wider vector and at any earlier index, despite larger padding and stride |
| FlexBuilder.LeastWidthSuffices | include/flatbuffers/flexbuffers.h:1731-1754 | The width computed for a vector is the least that is enough for its size, its keys and every element |
| FlexBuilder.Builder.WriteOffset | include/flatbuffers/flexbuffers.h:1561-1565 | Under the widths chosen, the offset fits its field, so the assertion there holds |
| FlexBuilder.Builder.CreateVector | include/flatbuffers/flexbuffers.h:1725-1781 | Earlier bytes stay; the new value stands for the vector of the trees on the stack, for their keys when typed, or for the map with those keys |
| FlexBuilder.Builder.AddKey | include/flatbuffers/flexbuffers.h:1150-1166 | The pushed value stands for the key up to its first NUL, whether written or found in the pool |
| FlexBuilder.Builder.AddString | include/flatbuffers/flexbuffers.h:1171-1188 | The pushed value stands for the whole string, whether written or found in the pool |
| FlexBuilder.Builder.EndMap | include/flatbuffers/flexbuffers.h:1251-1300 | The keys and values are replaced by one map sorted by key, and duplicate keys are reported exactly when there are any |
| FlexBuilder.Builder.Finish | include/flatbuffers/flexbuffers.h:1500-1516 | Reading the root from the end of the buffer yields the tree the stack stood for |
| FlexValues.AnyReadsBack | include/flatbuffers/flexbuffers.h:1675-1692 | A value written at a width it fits reads back as its tree |
| FlexSorting.SortSorts | include/flatbuffers/flexbuffers.h:1273-1290 | Sorting the pairs orders the keys as strcmp does and keeps the entries |
| FlexSorting.SortKeepsFinds | include/flatbuffers/flexbuffers.h:1273-1290 | Sorting distinct keys changes no lookup |
| FlexReader.StoredStays | include/flatbuffers/flexbuffers.h:1534-1537 | What is stored stays readable when bytes are appended |
| FlexReader.ReadsOneTree | include/flatbuffers/flexbuffers.h:946-959 | A reference reads as at most one tree |
| FlexReader.SearchKeys | include/flatbuffers/flexbuffers.h:967-999 | Binary search over indirect keys finds the key if and only if it is there |
| FlexReader.MapAt | include/flatbuffers/flexbuffers.h:975-1001 | Lookup in a sorted map yields the value under the key, or null |
| FlexRoundTrip.CanonicalOfOrdered | include/flatbuffers/flexbuffers.h:1251-1300 | A tree whose keys have no NUL and whose maps are sorted is read back as it is |
| FlexRoundTrip.CanonicalMapFinds | include/flatbuffers/flexbuffers.h:1273-1290 | A map with distinct keys, however ordered, has under each key what was added there and nothing elsewhere |
| FlexRoundTrip.Serialize | include/flatbuffers/flexbuffers.h:1500-1516 | For every tree and any sharing flags and forced width, the finished buffer reads from its root as the canonical tree and as no other |
| FlexRoundTrip.BuildAndLookUp | include/flatbuffers/flexbuffers.h:975-1001 | A map built with distinct keys answers every lookup as its association list does |
| VectorDownwards.ReallocateDownward | include/flatbuffers/allocator.h:42-64 | The larger buffer holds what was in use at both ends of the old one |
| VectorDownwards.VectorDownward.Reallocate | include/flatbuffers/vector_downward.h:278-293 | Both stacks keep their contents in a buffer with room for the requested bytes |
| VectorDownwards.VectorDownward.Push | include/flatbuffers/vector_downward.h:200-204 | The bytes come in front of the data; the scratch area is as it was, also when the buffer moves |
| VectorDownwards.VectorDownward.ScratchPush | include/flatbuffers/vector_downward.h:213-218 | The bytes come behind the scratch area; the data is as it was, also when the buffer moves |
| VectorDownwards.VectorDownward.Pop | include/flatbuffers/vector_downward.h:233-236 | Exactly the latest bytes are taken back |
| VectorDownwards.OffsetsAreStable | include/flatbuffers/vector_downward.h:198-198 | Whatever is written to either stack between two reads, and wherever the buffer moves, an offset from the end names the same byte |
| FlatTables.WrittenReadsBack | include/flatbuffers/table.h:29-49 | A table with a vtable of the right bytes reads back field by field, whether the vtable is its own or an older one |
| FlatTables.VTableLacks | include/flatbuffers/flatbuffer_builder.h:450-463 | The place of a field that was not added holds zero, so a field added twice is the only way its assertion fails |
| FlatTables.TableMoves | include/flatbuffers/table.h:35-49 | Bytes written later change no field of a table |
| FlatTables.VectorMoves | include/flatbuffers/flatbuffer_builder.h:751-776 | Bytes written later change no element of a vector |
| FlatBuilder.FieldEntryAt | include/flatbuffers/flatbuffer_builder.h:327-335 | Behind the vtable offsets, the scratch area holds the fields of the table under construction in order |
| FlatBuilder.FlatBufferBuilder.AddElement | include/flatbuffers/flatbuffer_builder.h:338-342 | The field is recorded with its value unless it equals the default and defaults are not forced |
| FlatBuilder.FlatBufferBuilder.AddOffset | include/flatbuffers/flatbuffer_builder.h:350-353 | The field is recorded with its target unless the offset is null |
| FlatBuilder.FlatBufferBuilder.WriteVTable | include/flatbuffers/flatbuffer_builder.h:441-463 | The vtable in front has both sizes and the distance of every field remembered in the scratch area, and zeros elsewhere |
| FlatBuilder.FlatBufferBuilder.FindVTable | include/flatbuffers/flatbuffer_builder.h:470-480 | Finds an older vtable with the same bytes if and only if there is one |
| FlatBuilder.FlatBufferBuilder.ShareVTable | include/flatbuffers/flatbuffer_builder.h:464-485 | The vtable stays and is remembered, or is popped in favour of an older one with the same bytes |
| FlatBuilder.FlatBufferBuilder.EndTable | include/flatbuffers/flatbuffer_builder.h:429-495 | The table has exactly the fields that were added, the bytes before are behind it, and all earlier tables and strings read back |
| FlatBuilder.FlatBufferBuilder.CreateString | include/flatbuffers/flatbuffer_builder.h:1401-1407 | At the offset are the length, the bytes and a NUL, aligned to four bytes |
| FlatBuilder.FlatBufferBuilder.CreateSharedString | include/flatbuffers/flatbuffer_builder.h:617-639 | If the pool has the bytes, the buffer is as it was and the old offset is given; otherwise the string is new and pooled |
| FlatBuilder.FlatBufferBuilder.StartVector | include/flatbuffers/flatbuffer_builder.h:690-700 | The padding aligns both the length and the elements, whichever is wider, and none is written for an empty vector |
| FlatBuilder.FlatBufferBuilder.CreateVector | include/flatbuffers/flatbuffer_builder.h:751-776 | At the offset are the number of elements and the numbers, aligned to their width; all earlier objects stay |
| FlatBuilder.FlatBufferBuilder.CreateVectorOfOffsets | include/flatbuffers/flatbuffer_builder.h:800-807 | At the offset are the number of elements and offsets that lead to the given objects in their order, although they are written last to first |
| FlatBuilder.FlatBufferBuilder.Finish | include/flatbuffers/flatbuffer_builder.h:1282-1309 | The size is a multiple of the largest alignment; the buffer begins with its size if asked for, an offset to the root and the identifier |
| FlatBuilder.FieldsReadBack | include/flatbuffers/table.h:45-57 | In any state of the builder, every field of every finished table reads back: scalars with their value, offsets leading to their object |
| FlatBuilder.OmittedFieldsReadDefault | include/flatbuffers/table.h:35-49 | A field that was not added reads as its default and as no pointer |
| FlatBuilder.VectorsReadBack | include/flatbuffers/flatbuffer_builder.h:751-807 | In any state of the builder, every vector reads back: its length, its numbers, and its offsets leading to their objects |
| FlatBuilder.FieldsAreAligned | include/flatbuffers/flatbuffer_builder.h:284-293 | In a finished buffer every table and every field lies at a multiple of its size |
| FlatBuilder.ElementsAreAligned | include/flatbuffers/flatbuffer_builder.h:690-700 | In a finished buffer every vector and every element lies at a multiple of its size |
| FlatChecks.TableIsSound | include/flatbuffers/verifier.h:184-200 | If a table passes all checks, every read that follows the schema from it stays in the buffer: vtable, fields, offsets, vector elements, string terminators |
| FlatVerifier.Verifier.VerifyVectorOrString | include/flatbuffers/verifier.h:146-161 | Accepts exactly the vectors whose size field and elements lie in the buffer and whose length is below the limit; the size in bytes cannot wrap |
| FlatVerifier.Verifier.VerifyTableStart | include/flatbuffers/verifier.h:184-200 | Accepts exactly the tables with a whole, aligned vtable within the limits, also when the vtable offset wraps around |
| FlatVerifier.Verifier.VerifyTable | include/flatbuffers/verifier.h:286-296 | Terminates, and accepts if and only if every part passes and the tables seen and their nesting stay within the limits; the counters are then exact |
| FlatVerifier.Verifier.VerifyBufferFromStart | include/flatbuffers/verifier.h:203-228 | Accepts if and only if the size, the identifier, the root offset and the root table pass |
| FlatVerifier.Verifier.VerifyBuffer | include/flatbuffers/verifier.h:251-253 | Accepts exactly the buffers that pass, and whatever is accepted can be read from the root without leaving the buffer |
| FlatVerifier.Verifier.VerifySizePrefixedBuffer | include/flatbuffers/verifier.h:256-262 | As for a buffer, behind a size that claims no more than there is |
| FlatVerifier.ScalarFieldIsReadable | include/flatbuffers/table.h:45-49 | A scalar field of an accepted table is read inside the buffer, and is there if it is required |
| FlatVerifier.PointerFieldIsReadable | include/flatbuffers/table.h:51-57 | A pointer field of an accepted table leads to an accepted target further on |
| FlatVerifier.ElementIsReadable | include/flatbuffers/verifier.h:146-161 | Every element of an accepted vector, and every character of an accepted string, lies in the buffer |
| FlatRoundTrip.FinishedBufferIsAccepted | include/flatbuffers/verifier.h:203-262 | A finished buffer whose tables conform to the schema, in every kind of field (scalars, strings, tables, vectors of numbers, strings and tables), passes the verifier if and only if its tables and their nesting stay within the limits |
| FlatRoundTrip.FinishAndVerify | include/flatbuffers/flatbuffer_builder.h:1282-1309 | Finishing the builder's buffer and verifying the bytes: accepted exactly within the limits |
| ScratchpadBlocks.TakenKeepsCoalesced | fixedpoint.h:150-161 | Taking a block, with or without splitting it, leaves no two neighbours free |
| ScratchpadBlocks.ReleasedKeepsCoalesced | fixedpoint.h:174-185 | Releasing a block and merging it on both sides leaves no two neighbours free |
| ScratchpadBlocks.SplitKeepsLaid | fixedpoint.h:151-160 | After a split, the headers still tile the buffer in address order and link each other both ways |
| ScratchpadBlocks.MergeKeepsLaid | fixedpoint.h:176-185 | After a merge, the headers still tile the buffer in address order and link each other both ways |
| Scratchpads.RoundingSuffices | fixedpoint.h:147-147 | The rounded size is enough if and only if the rounding did not wrap around, that is up to 2^64 - 128 |
| Scratchpads.PointersAreInside | fixedpoint.h:172-174 | Every pointer of the list is aligned and strictly inside the buffer, so releasing it takes the list branch |
| Scratchpads.PayloadsDoNotOverlap | fixedpoint.h:150-162 | The payloads of two blocks are disjoint, with a header between them |
| Scratchpads.NothingIsLost | fixedpoint.h:144-189 | Headers and payloads together are always the whole buffer |
| Scratchpads.ReleasedIsInitial | fixedpoint.h:111-117 | Once every block is released, the list is the initial single block |
| Scratchpads.ReleaseUndoesTake | fixedpoint.h:174-185 | Releasing the block just taken restores the list |
| Scratchpads.Scratchpad.InitializeIfNeeded | fixedpoint.h:95-119 | The first use lays one free block over the buffer, unless no memory was given |
| Scratchpads.Scratchpad.Alloc | fixedpoint.h:144-169 | Takes the first free block that is large enough, or an address from outside; no live payload changes |
| Scratchpads.Scratchpad.Free | fixedpoint.h:170-189 | A pointer into the buffer releases its block and merges it on both sides; any other leaves the list alone; no live payload changes |
| StochasticRounding.ScaledIsFloor | fixedpoint.h:29-35 | The shifted significand is the absolute value times 2 to the precision, rounded down |
| StochasticRounding.RoundsToANeighbour | fixedpoint.h:44-50 | The magnitude is the absolute value rounded down or up, and exact for whole numbers |
| StochasticRounding.NeighbourIffRepresentable | fixedpoint.h:29-50 | Rounding gives a neighbour for all noise values if and only if the absolute value times 2 to the precision is below 2^32 |
| StochasticRounding.InfinityBecomesZero | fixedpoint.h:37-54 | Infinities and NaN are out of that range and are stored as zero, in every output type |
| StochasticRounding.RoundingIsUnbiased | fixedpoint.h:44-50 | Over all 2^precision noise values the magnitudes add up to the absolute value times 2^precision, rounded down |
| StochasticRounding.RoundsWithSign | fixedpoint.h:37-54 | In that range the result has the sign of the number and is a neighbour of it, in every output type that can hold it, its least value included |
| StochasticRounding.FitsIn | fixedpoint.h:53-53 | Cutting a number to the output type keeps it if and only if it is in the range of the type |
| StochasticRounding.StochasticRoundArray | fixedpoint.h:56-82 | For every length, each index is rounded once with the noise of its lane, and nothing else is written |

## Left out

- ArenaExecution.PlanAndInvoke: requires that no persistent tensor is lost as an alias, since a lost tensor has no bytes
  to compare (`Planning.ArenaPlanner.BytesIffNoneLost`, `ArenaExecution.PersistentAliasIsLost`).
- InPlaceSharing.TransparentIffUndisturbed: takes operators registered to leave data unmodified as copying their first
  input, as `include/tensorflow/lite/core/c/common.h:1101-1103` says.
- ArenaExecution.RunNodeRefines: takes the soundness of the plan as a hypothesis; `ArenaExecution.Interpreter.Invoke`
  discharges it for every range. Kernels that resize their outputs or update variables in place are not modelled.
- Scratchpads.Scratchpad.SetSize: requires that nothing is in use, because the source frees the buffer under live
  pointers; freeing a pointer twice is excluded in the same way.
- StochasticRounding.RoundsWithSign: precisions above 31 are not covered, where the shift in the source is undefined;
  subnormal numbers are stored as zero, as the source does.
- Partitioning.PartitionGraphIntoIndependentNodeSubsets: explicit control edges must leave the graph without cycles, as
  the source demands; what happens otherwise is in `PartitionTheorems.EveryNodeIsScheduledIffAcyclic`.
- The arena: overflow of `size_t`, `PurgeAfter`, `CalculateActiveAllocs`, `ResetAllocationsAfter`, releasing and
  acquiring non-persistent memory. The marker for no offset is an `Option`; the gap search keeps every branch of the
  source, also the one for a gap of zero bytes, which no non-empty tensor takes.
- `std::sort` with `std::unique` is modelled by its effect, `std::sort` over map entries by insertion; `std::set` pools
  are searched linearly.
- FlexBuffers: floating point values, typed and fixed vectors other than the key vectors of maps, shared key vectors,
  conversions between scalar types in the accessors, mutation, printing and its own verifier. Buffers are below 2^63
  bytes.
- FlatBuffers: structs, unions and forced alignment in the builder, nested buffers, 64-bit regions, `SetField` and
  `SetPointer`, tracking of the upper bound while verifying. The limits on tables and nesting are below 2^32 - 1, where
  the counters would wrap.
- The scratchpad's mutex: every operation is one step. Memory from outside is the address it would have.
- Block floating point and the tiled matrix product of `fixedpoint.h` and `pipeline.h`.
- Accelerator, network and file code, `simple_planner.cc`, and the Python wrappers.
