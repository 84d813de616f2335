# Verified models of parts of vLLM

Dafny models of eight pieces of vLLM, with proofs about whole runs of them. `Basics.dfy` holds
what they share.

- **Graph partitions** (`GraphPartition.dfy`). One backward pass gives every partition of a
  compiled graph a signature: its inputs, its outputs, the inputs it frees. The theorems are
  about the forward run, in which a partition gets what its signature lists. The signatures
  and the names left unmet by the pass have closed forms over the nodes. The run completes
  if and only if the first unmet names are there, no partition frees a name too early and
  every name that is needed is known.
- **Memory planning** (`MemoryPlanning.dfy`). Lines are planned in place with a stack of
  states. The proof compares this with planning every subgraph instance on its own, without
  a stack, and says exactly for which lists the stack suffices.
- **Build log** (`NinjaLog.dfy`, `BuildSweep.dfy`, `BuildSummary.dfy`). The reader keeps the
  last build of a ninja log. The sweep shares the time of a build between its steps in one
  pass over sorted events. The reference shares every interval between successive time
  stamps. Time is conserved: the weighted durations add up to the busy time.
- **Chunked allocator on ROCm** (`ChunkTiling.dfy`, `ChunkedAllocator.dfy`). Cutting an
  allocation into chunks with 64-bit wrap-around, and the protocol of creating, mapping,
  unmapping and releasing chunks against a driver that may fail at any call. The faults of
  the driver are listed by the position of the call; what an operation leaves behind is
  proved as an if-and-only-if over them. Mappings carry their access, and after a success
  every address of the allocation is accessible.
- **Module printer** (`IndexRanges.dfy`, `ModuleSignature.dfy`, `ModuleTree.dfy`,
  `ModulePrinter.dfy`, `ModuleText.dfy`). Equal layers are printed once under the ranges of
  their indices. The ranges parse back, equal signatures mean equal trees, and the printed
  lines determine what the tree means.
- **Bad-word filter** (`BadWords.dfy`). What a call does to every logit, and what a run of
  calls can produce.
- **Flat log-probabilities** (`FlatLogprobs.dfy`). The flat container refines a list of
  dictionaries over every run of its operations, up to slices that go backwards.
- **Reference quantiser** (`Int8Quant.dfy`). The scale and the error bounds in terms of the
  row, in exact arithmetic, and when the result is defined.

Properties that the code does not have everywhere, each with a concrete case and the exact
condition under which it holds:

- A signature can free an input that is still needed later (`EarlyFreeBreaksTheRun`); the
  condition is in `ForwardSoundness`, and right last usages imply it. A needed name that is
  neither a known node nor a constant is not handed over (`UnknownNameBreaksTheRun`).
- The final assertion of memory planning lets some unbalanced lists through
  (`UnbalancedLinesCanPass`); `PlanLines` has the exact lists.
- The weighted total is below the length of the build when nothing ran for a while
  (`IdleGapShortensTotal`, `TotalAgainstLength`), and the sweep raises for a step that ends
  before it starts (`BackwardStepRaises`, `Sweep`).
- A fault of `ensure_context` does not stop `create_and_map`, which then leaks the handle of
  its first create (`FaultyContextLeaksHandle`); after a failed `cuMemSetAccess` nothing is
  rolled back (`FaultyAccessKeepsChunks`). `FirstFaultDecides` has the condition under which
  nothing is left.
- Sleeping loses the range when it is freed and not reserved at its old place again
  (`SleepLosesRange`); `AwakeSleeps` has the condition.
- The chunks tile the allocation if and only if counting them does not wrap around
  (`WrappedCountMapsNothing`), and the aligned chunk size can wrap around to zero
  (`ChunkSizeCanWrapToZero`); `ComputeChunks` has both conditions.
- A colon after the first character of a module name gives different trees one signature
  (`ColonsCanCollide`, `CollidesIffColon`).
- A child can be printed like a group of layers (`TwoChildrenOrOne`,
  `SharesTextIffAmbiguous`), which takes a class whose name begins with a digit.
- A slice of the flat container raises where a list gives the empty list
  (`EmptySliceRaises`), and a slice that goes down loses its rows
  (`BackwardSliceCannotBeRead`); `Slice` has the conditions.
- The zero point of the quantiser can leave the range of its type (`ZeroPointCanOverflow`,
  `QuantiseIsDefined`), but not for a row around zero (`RowAroundZeroIsDefined`).

Where the documentation and the code disagree the model follows the code. `FlatLogprobs` says
that it acts as a list, which is not so for slices that are empty or go backwards.
`WeightedDuration` promises a value no longer than the duration of the step; that is proved for
every step the sweep accepts.

`dafny verify dfyconfig.toml` checks the project.

## Model

| member | source | states |
|---|---|---|
| `GraphPartition.LayoutIsEndOfChain` | vllm/env_override.py:208-226 | the recursion of is_none_layout returns exactly when the chain of real names has an end, and answers by that end |
| `GraphPartition.LayoutFollowsRealName` | vllm/env_override.py:218-222 | a forwarded name has the layout of its real name, also when neither answer comes |
| `GraphPartition.ChainIsUnique` | vllm/env_override.py:213-226 | a name starts at most one chain of real names |
| `GraphPartition.Gather` | vllm/env_override.py:231-263 | the loops over the nodes collect exactly the outputs, the accesses and the last usages of the partition |
| `GraphPartition.Step` | vllm/env_override.py:228-327 | one round gives the signature, or raises in exactly the listed cases, and the next unmet names |
| `GraphPartition.BackwardPass` | vllm/env_override.py:228-329 | the pass returns the signature of every partition in order, or some partition raises |
| `GraphPartition.GetGraphPartitionSignature` | vllm/env_override.py:191-329 | partitions and flags are paired from the back, and only the common part is visited |
| `GraphPartition.UnmetClosedForm` | vllm/env_override.py:228-327 | a name is unmet before partition k if and only if someone from k on needs it before any partition from k on returns it |
| `GraphPartition.SignatureOfNodes` | vllm/env_override.py:231-321 | every part of a returned signature by what the nodes of its partition read, write, make and use last: the known inputs and the constants it needs, what it gives back to later takers, what it frees, and its flag |
| `GraphPartition.RaisesOnNodes` | vllm/env_override.py:246-307 | the pass raises at a partition if and only if the layout of an accessed or returned name has no answer, or a stored name to return is not known |
| `GraphPartition.AvailableAfter` | vllm/env_override.py:275-306 | a call makes a stored name available exactly when it returns it, or it was available and is not a known input that the partition uses last |
| `GraphPartition.UnmetStaysAvailable` | vllm/env_override.py:228-329 | when the run starts with the unmet names and nothing is freed too early, every stored unmet name is available at every partition |
| `GraphPartition.MissingNameIsMissed` | vllm/env_override.py:228-329 | a stored unmet name that is not available is missed by a later partition or by the end |
| `GraphPartition.EarlyDropIsMissed` | vllm/env_override.py:275-306 | a name freed too early is missed later, whatever the run starts with |
| `GraphPartition.ForwardSoundness` | vllm/env_override.py:228-329 | the forward run, in which a partition is handed only the inputs and constants of its signature, completes if and only if the first unmet names are there at the start, no partition frees a name too early, and every stored name that a partition needs is a known node or a constant |
| `GraphPartition.RightLastUsagesNeverDropTooEarly` | vllm/env_override.py:261-284 | when nothing later takes a name that a partition uses last, no partition frees a name too early |
| `GraphPartition.EveryAccessIsServed` | vllm/env_override.py:246-329 | with right last usages, a stored name that a node accesses and none makes is an input under its real name if and only if that is known, a constant if and only if it is one, and available if and only if it has storage or is there at the start; the run completes if and only if all needed names are known |
| `GraphPartition.UnstoredComesFromStart` | vllm/env_override.py:246-312 | a name without storage is available exactly when it was there at the start and has not been freed |
| `GraphPartition.EarlyFreeBreaksTheRun` | vllm/env_override.py:261-312 | two partitions that read one name, the first of which claims to use it last: the pass accepts them and their run completes from no start |
| `GraphPartition.UnknownNameBreaksTheRun` | vllm/env_override.py:275-284 | a partition that reads a name which is neither known nor constant: the pass accepts it and lists no input, and its run completes from no start |
| `MemoryPlanning.InstanceIsUnique` | vllm/env_override.py:168-177 | no line sits directly in two subgraph instances |
| `MemoryPlanning.InstanceExists` | vllm/env_override.py:168-177 | where no exit comes before its enter, every line sits directly in some instance |
| `MemoryPlanning.Trim` | vllm/env_override.py:159-165 | what is dropped is a suffix of planning lines whose nodes are not outputs, and a planning line that is kept last has an output for its node |
| `MemoryPlanning.TrimKeepsBalance` | vllm/env_override.py:159-165 | trimming keeps balanced lists balanced |
| `MemoryPlanning.OtherInstancesDoNotMatter` | vllm/env_override.py:168-178 | the state of an instance does not depend on the planning lines of other instances |
| `MemoryPlanning.AloneIsInTurn` | vllm/env_override.py:168-178 | every planning line gets the state that the previous planning line of its own instance left, and the first one of an instance a fresh state |
| `MemoryPlanning.UnbalancedLinesCanPass` | vllm/env_override.py:168-179 | an unbalanced list for which neither a pop nor the final assertion fails |
| `MemoryPlanning.WrapperCodegen.TrimLines` | vllm/env_override.py:159-165 | the loop of pops leaves the trimmed lines |
| `MemoryPlanning.WrapperCodegen.PlanLine` | vllm/env_override.py:170-177 | one round keeps the stack equal to the states of the open instances, and raises only where the stack does not suffice |
| `MemoryPlanning.WrapperCodegen.PlanLines` | vllm/env_override.py:167-179 | planning with the stack succeeds if and only if the stack suffices; then every line is as its own instance alone would plan it, with the states handed on from line to line |
| `MemoryPlanning.WrapperCodegen.MemoryPlanReuse` | vllm/env_override.py:159-179 | both passes together, for the trimmed lines; balanced lines never raise |
| `NinjaLog.LastBuildIsSuffix` | tools/report_build_time_ninja.py:123-143 | what is kept is a suffix of the log and one build |
| `NinjaLog.BuildsExist` | tools/report_build_time_ninja.py:123-143 | every log can be cut into builds, none of which could take the first record of the next |
| `NinjaLog.LastBuildOfAnyCut` | tools/report_build_time_ninja.py:123-143 | the last build of any such cut is what is kept |
| `NinjaLog.GroupIsOfCommand` | tools/report_build_time_ninja.py:132-147 | there is a group for exactly the commands in the records, with all their names in order and the times of the first record |
| `NinjaLog.CommandsAreKeys` | tools/report_build_time_ninja.py:144-148 | the order of insertion lists every key once |
| `NinjaLog.EveryNameOnce` | tools/report_build_time_ninja.py:147 | every record gives one name to one group |
| `NinjaLog.RecordsComeInOrder` | tools/report_build_time_ninja.py:115-121 | the records are exactly the lines with five fields, in order |
| `NinjaLog.NamesComeInOrder` | tools/report_build_time_ninja.py:147 | the names of a command are exactly those of its records, in order |
| `NinjaLog.CommandsComeInOrder` | tools/report_build_time_ninja.py:144-148 | the commands are in the order of their first records |
| `NinjaLog.ExtendsBuild` | tools/report_build_time_ninja.py:123-143 | the two tests of the reader accept a record if and only if the kept records stay one build with it |
| `NinjaLog.KeepRecord` | tools/report_build_time_ninja.py:123-147 | what is kept after one more record |
| `NinjaLog.AddRecord` | tools/report_build_time_ninja.py:131-147 | the dictionary of objects holds the groups after one more record, one object for each |
| `NinjaLog.DropOlder` | tools/report_build_time_ninja.py:123-143 | the dictionary is emptied if and only if the record is of a new build |
| `NinjaLog.ReadRecord` | tools/report_build_time_ninja.py:115-147 | one well-formed line keeps dictionary, order and last end time in step with the kept records |
| `NinjaLog.ReadTargets` | tools/report_build_time_ninja.py:112-148 | the targets of the last build, or of the whole log, in order, each a new object of its own |
| `BuildSweep.Sort` | tools/report_build_time_ninja.py:224 | sorted by time with starts before stops, and a permutation |
| `BuildSweep.StopAfterStart` | tools/report_build_time_ninja.py:224-228 | the stop of a task comes after its start if and only if its end is not before its start |
| `BuildSweep.TotalIsBusyTime` | tools/report_build_time_ninja.py:238-255 | together the tasks get exactly the time during which at least one runs |
| `BuildSweep.FairPartsConserveTime` | tools/report_build_time_ninja.py:241-244 | conservation for any fair parts, up to any time stamp |
| `BuildSweep.ShareIsDifference` | tools/report_build_time_ninja.py:245-251 | what a task gets is the difference of the running total at its stop and at its start |
| `BuildSweep.WeightedDurationIsBounded` | tools/report_build_time_ninja.py:74-89 | no weighted duration is negative or more than the elapsed time of its task |
| `BuildSweep.OpenGivesPart` | tools/report_build_time_ninja.py:241-244 | dividing by the number of open tasks gives the part of the interval, also for intervals without length |
| `BuildSweep.WeightedAtEvent` | tools/report_build_time_ninja.py:240-244 | the update of the running total from the state before the event |
| `BuildSweep.NextState` | tools/report_build_time_ninja.py:245-255 | the state after an event from the state before it |
| `BuildSweep.DurationAtStop` | tools/report_build_time_ninja.py:248-252 | at its stop a task is in the dictionary if and only if it started before, and the difference is all it gets |
| `BuildSweep.SweepEvent` | tools/report_build_time_ninja.py:238-255 | one event of the sweep, and exactly when it raises a KeyError |
| `BuildSweep.SweepEvents` | tools/report_build_time_ninja.py:229-256 | the loop and the final assertion fail if and only if some task stops before its start; otherwise every task carries its weighted duration and the total is their sum |
| `BuildSweep.NoneLeftRunning` | tools/report_build_time_ninja.py:256 | after the last event no task is running, so the final assertion holds |
| `BuildSweep.Sweep` | tools/report_build_time_ninja.py:229-256 | the same for any sorted schedule: it fails on an empty list and on a task that ends before it starts, and on nothing else |
| `BuildSummary.TiesDoNotMatter` | tools/report_build_time_ninja.py:223-228 | all sorted orders of the events have the same time stamps |
| `BuildSummary.BusyIffNoIdleGap` | tools/report_build_time_ninja.py:238-255 | every interval is busy if and only if at every moment of the build some task runs |
| `BuildSummary.TotalAgainstLength` | tools/report_build_time_ninja.py:220-259 | the weighted total is at most the length, and equal to it if and only if there is no idle gap |
| `BuildSummary.TotalAgainstCpuTime` | tools/report_build_time_ninja.py:207-259 | the weighted total is at most the CPU time, and equal to it if and only if no two steps run at the same time for more than a moment |
| `BuildSummary.Extent` | tools/report_build_time_ninja.py:207-220 | the events and the CPU time of all entries; for times that are not negative, the earliest start and the latest end |
| `BuildSummary.ExtentOfTimes` | tools/report_build_time_ninja.py:209-233 | the first and the last time stamp are the earliest start and the latest end |
| `BuildSummary.SummarizeEntries` | tools/report_build_time_ninja.py:198-259 | the whole computation: when it succeeds, shares of the busy time, bounds by the elapsed times, and the total against the length and against the CPU time |
| `BuildSummary.IdleGapShortensTotal` | tools/report_build_time_ninja.py:198-259 | two steps, from 0 to 1 and from 2 to 3, for which the total is less than the length |
| `BuildSummary.BackwardStepRaises` | tools/report_build_time_ninja.py:248-251 | a step from 2 to 1, for which the sweep raises |
| `ChunkTiling.BaseChunk` | csrc/cumem_allocator.cpp:24-42 | the number of megabytes asked for, when it is positive and fits into 64 bits, else the default |
| `ChunkTiling.AlignUpIsLeast` | csrc/cumem_allocator.cpp:341 | without wrap-around the aligned size is the least multiple that is large enough |
| `ChunkTiling.AlignUpIsZero` | csrc/cumem_allocator.cpp:341 | the aligned size is zero if and only if nothing was asked for or the alignment wraps around |
| `ChunkTiling.CountChunksBounds` | csrc/cumem_allocator.cpp:369-370 | the last chunk is not empty, and the chunks reach the size if and only if counting them does not wrap around |
| `ChunkTiling.Cut` | csrc/cumem_allocator.cpp:376-391 | the loop fills every chunk without going below zero, and the sum of the chunks |
| `ChunkTiling.CutTiles` | csrc/cumem_allocator.cpp:366-391 | the chunks are positive, aligned, full but for the last, and add up to the size, if and only if counting them does not wrap around |
| `ChunkTiling.ComputeChunks` | csrc/cumem_allocator.cpp:366-391 | the whole cut: a division by zero exactly when aligning the chunk size wraps around; chunks that are positive and fit; they tile the size if and only if counting them does not wrap around, and else there are none |
| `ChunkTiling.ChunksCoverOnce` | csrc/cumem_allocator.cpp:160-178 | an address is in the range of the chunks if and only if it is in one of them, and never in two |
| `ChunkTiling.ChunkSizeCanWrapToZero` | csrc/cumem_allocator.cpp:36-41 | a chunk size that passes the overflow guard and aligns to zero |
| `ChunkTiling.CountCanWrapToZero` | csrc/cumem_allocator.cpp:366-370 | a chunk size for which four megabytes are cut into no chunks |
| `ChunkedAllocator.FirstErrorIsFirst` | csrc/cumem_allocator.cpp:217-233 | the reported error is that of the first failing call, and none exactly when all succeeded |
| `ChunkedAllocator.HandlesUndone` | csrc/cumem_allocator.cpp:153-156 | releasing the new handles gives the live handles of before if and only if every release succeeds |
| `ChunkedAllocator.TileUndone` | csrc/cumem_allocator.cpp:165-171 | unmapping the new chunks gives the mappings of before if and only if every unmap succeeds |
| `ChunkedAllocator.NextChunkCanBeMapped` | csrc/cumem_allocator.cpp:160-179 | in a free range every next chunk can be mapped |
| `ChunkedAllocator.Allocator.UnmapChunks` | csrc/cumem_allocator.cpp:216-226 | one unmap call for every chunk at its address, whatever the statuses, and the first error; every call is legal when the chunks are mapped |
| `ChunkedAllocator.Allocator.ReleaseHandles` | csrc/cumem_allocator.cpp:228-233 | one release call for every handle, whatever the statuses, and the first error; every call is legal when the handles are live and distinct |
| `ChunkedAllocator.Allocator.CreateChunks` | csrc/cumem_allocator.cpp:150-159 | new handles in order; on an error the earlier ones are released by legal calls, and the handle of the failing round survives exactly when its own create succeeded; every status is that of the driver |
| `ChunkedAllocator.Allocator.MapChunk` | csrc/cumem_allocator.cpp:162-163 | a mapping exactly where the driver allows it and does not fail |
| `ChunkedAllocator.Allocator.MapChunks` | csrc/cumem_allocator.cpp:160-179 | all chunks mapped end to end; or the mapped ones unmapped and all handles released by legal calls; every status is that of the driver |
| `ChunkedAllocator.Allocator.CreateAndMap` | csrc/cumem_allocator.cpp:95-193 | every way it ends, with the whole sequence of driver calls, their statuses and what is left; when it succeeds a chunk is accessible if and only if it lies within the size, and after a failed access call none is; the driver is as before if and only if the recorded calls undo everything; in a range that can hold the chunks, with the error code clear, the first call with a fault alone decides this and the number of calls |
| `ChunkedAllocator.OpenedIsAccessible` | csrc/cumem_allocator.cpp:181-187 | after the access call every address of a chunk is accessible if and only if the chunk lies within the size |
| `ChunkedAllocator.ReachingAllIsAccessible` | csrc/cumem_allocator.cpp:181-187 | when the size covers the chunks, every address from the base to their end is accessible |
| `ChunkedAllocator.OpensOnlyChunks` | csrc/cumem_allocator.cpp:187 | in a range where only the chunks are mapped, the access call changes nothing else |
| `ChunkedAllocator.Allocator.FirstFaultDecides` | csrc/cumem_allocator.cpp:95-193 | the position of the first fault gives the ending: nothing is left if and only if the call after a fault of ensure_context has a fault too, or every call that undoes a create or a map succeeds; a fault of the access call leaves nothing only without chunks |
| `ChunkedAllocator.Allocator.MapAndAllow` | csrc/cumem_allocator.cpp:160-190 | the second loop and the access call, with their calls in order, their roll-back and the access that results |
| `ChunkedAllocator.StoppedAtCreate` | csrc/cumem_allocator.cpp:152-158 | what is left when a create stops the loop, with the error code clear and with it set |
| `ChunkedAllocator.StoppedAtMap` | csrc/cumem_allocator.cpp:164-177 | what is left when a map stops the loop |
| `ChunkedAllocator.StoppedMapWasLegal` | csrc/cumem_allocator.cpp:160-164 | in a free range a map is stopped by a fault of the driver only |
| `ChunkedAllocator.Allocator.CycleAddress` | csrc/cumem_allocator.cpp:240-255 | each of the four endings if and only if its condition on the driver holds, with the calls and the reservations of each; the range is lost if and only if it is freed and not reserved at the same place again |
| `ChunkedAllocator.Allocator.UnmapAndRelease` | csrc/cumem_allocator.cpp:195-261 | every chunk is unmapped and released exactly once, the whole sequence of calls with their statuses, the ending of the cycle by its condition on the driver, the reservations afterwards, and the error code of every ending |
| `ChunkedAllocator.Allocator.AwakeSleeps` | csrc/cumem_allocator.cpp:195-261 | for an awake allocation, by the faults and the place of the new reservation alone: exactly when the cycle succeeds and exactly when the range stays reserved |
| `ChunkedAllocator.Allocator.PythonCreateAndMap` | csrc/cumem_allocator.cpp:737-750 | the same calls, statuses and changes, with the error taken and cleared; in a free range it succeeds if and only if the error code was clear and no call has a fault, and after a failure the first fault decides whether anything is left |
| `ChunkedAllocator.Allocator.PythonUnmapAndRelease` | csrc/cumem_allocator.cpp:670-683 | for an awake allocation it succeeds if and only if the error code was clear, no call has a fault and the driver reserves the range at its old place; exactly when the range stays reserved |
| `ChunkedAllocator.Allocator.MyMalloc` | csrc/cumem_allocator.cpp:321-449 | a pointer if and only if the error code was clear, no call has a fault, the driver finds an unreserved place and the chunk size does not wrap around; the pointer is to a new range held by its chunks, every address of which is accessible, large enough if and only if the size does not wrap around; after a failure, how create_and_map ended and whether the range was freed, and by the first fault alone exactly when nothing is left |
| `ChunkedAllocator.Allocator.ReserveRange` | csrc/cumem_allocator.cpp:321-354 | a new reservation if and only if the error code was clear, no call has a fault and the place is unreserved; else nothing changes |
| `ChunkedAllocator.Allocator.MapRange` | csrc/cumem_allocator.cpp:362-449 | a division by zero exactly when aligning the chunk size wraps around; else the chunks of the new range are mapped if and only if no call has a fault; after a failure, how it ended and, by the first fault alone, exactly when the range is gone and all else as before |
| `ChunkedAllocator.Allocator.MapOrFree` | csrc/cumem_allocator.cpp:425-448 | in a range that can hold them the chunks are mapped if and only if no call has a fault; after a failure the free call with its status, and by the first fault alone exactly when the range is gone and all else as before |
| `ChunkedAllocator.IsAllocated` | csrc/cumem_allocator.cpp:425-448 | the new chunks are accessible and nothing else has changed; when counting the chunks does not wrap around, the new allocation is tiled and awake |
| `ChunkedAllocator.FallAsleep` | csrc/cumem_allocator.cpp:195-261 | after a successful sleep no chunk is mapped, no handle is live, the range is free for the same chunks and all else is as it was |
| `ChunkedAllocator.WakeUp` | csrc/cumem_allocator.cpp:95-193 | waking up gives the same addresses and sizes with access to all of them, and nothing else changes |
| `ChunkedAllocator.Allocator.SleepAndWake` | csrc/cumem_allocator.cpp:588-751 | sleep succeeds if and only if the error code was clear, no call has a fault and the driver reserves the range at its old place; exactly when the range stays reserved; waking up then succeeds if and only if no call has a fault, and restores the allocation with every address accessible |
| `ChunkedAllocator.SleepingRangeCanBeFreed` | csrc/cumem_allocator.cpp:235-241 | with its chunks gone, the range of an awake allocation can be freed |
| `ChunkedAllocator.FaultyContextLeaksHandle` | csrc/cumem_allocator.cpp:102-158 | a fault of ensure_context, with the two calls that follow, after which a handle stays live |
| `ChunkedAllocator.FaultyAccessKeepsChunks` | csrc/cumem_allocator.cpp:187-190 | an allocation of one byte with a fault of cuMemSetAccess: the chunk stays mapped and the range cannot be freed |
| `ChunkedAllocator.SleepLosesRange` | csrc/cumem_allocator.cpp:240-255 | an allocation of one byte whose range is reserved elsewhere when it sleeps: the range is lost |
| `ChunkedAllocator.WrappedCountMapsNothing` | csrc/cumem_allocator.cpp:366-391 | an allocation of four megabytes, with a chunk size for which counting wraps around: a pointer with nothing mapped |
| `IndexRanges.RunsOfAreRuns` | vllm/model_inspection.py:46-57 | the runs are not empty, none continues the one before, and together they are the indices |
| `IndexRanges.ParseShowRuns` | vllm/model_inspection.py:54-58 | the text of any list of runs parses to their members |
| `IndexRanges.RangesTextRoundTrip` | vllm/model_inspection.py:44-58 | the text for any indices, negative and repeated ones included, parses to the sorted indices |
| `IndexRanges.RangesAreMaximal` | vllm/model_inspection.py:44-58 | for distinct indices every range is a maximal run |
| `IndexRanges.CollectRanges` | vllm/model_inspection.py:46-57 | the loop gives the texts of the runs |
| `IndexRanges.FormatIndexRanges` | vllm/model_inspection.py:44-58 | the text, or the IndexError on an empty list |
| `ModuleSignature.WalkOfOneTree` | vllm/model_inspection.py:36-41 | the list of paths and descriptions of a tree, whatever follows, is that of one tree only |
| `ModuleSignature.LineIsInjective` | vllm/model_inspection.py:39-41 | a line determines its path and description and the text after it, also when names have line breaks |
| `ModuleSignature.TailTextIsInjective` | vllm/model_inspection.py:41 | the joined text determines the entries |
| `ModuleSignature.SameSignatureSameTree` | vllm/model_inspection.py:36-41 | modules with one signature are the same tree, for names without a dot and without a colon after their first character |
| `ModuleSignature.CollidesIffColon` | vllm/model_inspection.py:36-41 | of the names that PyTorch allows, a network with the child has the signature of another tree if and only if the name has a colon after its first character |
| `ModuleSignature.ColonMoves` | vllm/model_inspection.py:40 | any such colon can move from the name into the description without changing the signature |
| `ModuleSignature.ColonsCanCollide` | vllm/model_inspection.py:36-41 | two networks, with descriptions as PyTorch prints them, that have one signature |
| `ModuleTree.PrintedGroupsKeepChildren` | vllm/model_inspection.py:92-110 | no numbered child is lost or repeated in the groups |
| `ModuleTree.GroupIsOneTree` | vllm/model_inspection.py:101-112 | all children of a group are the tree that is printed for it |
| `ModuleTree.PrintedGroupsAreApart` | vllm/model_inspection.py:101-110 | no two groups have one signature |
| `ModuleTree.PrintedGroupsAreSorted` | vllm/model_inspection.py:109-110 | the printed groups are sorted by their first index, and those with the same one are in the order of their first children |
| `ModuleTree.NumberedComeInOrder` | vllm/model_inspection.py:92-98 | the numbered children are exactly those whose names are numbers, in order |
| `ModuleTree.OthersComeInOrder` | vllm/model_inspection.py:92-98 | the other children are exactly the rest, in order |
| `ModuleTree.AddToDictionary` | vllm/model_inspection.py:105-107 | setdefault and append keep the dictionary equal to the list of groups |
| `ModuleTree.GroupNumbered` | vllm/model_inspection.py:104-110 | the values of the dictionary, in order, are the groups |
| `ModulePrinter.GroupExpandsToBlocks` | vllm/model_inspection.py:110-124 | the block of a group, labelled with one index, is the block of that child printed by itself, and the label lists the indices |
| `ModulePrinter.FormatRendersDoc` | vllm/model_inspection.py:61-131 | the printed lines are the text of the document, at every name and indentation, with its groups in their order |
| `ModulePrinter.DocMeansTree` | vllm/model_inspection.py:61-131 | expanding the document over its indices, at every level, gives the meaning of the tree |
| `ModulePrinter.DocGroupsAreSorted` | vllm/model_inspection.py:109-124 | the groups of the document are in that order, each with the document of its first child |
| `ModuleText.LinesOfOneBlock` | vllm/model_inspection.py:78-131 | the lines of a block, whatever follows, are those of one block only |
| `ModuleText.GroupHeads` | vllm/model_inspection.py:111-123 | the first line of a group determines its indices, but for their order, and its description |
| `ModuleText.GroupIsNotOther` | vllm/model_inspection.py:114-128 | the first line of a group is not that of a named child, unless the name looks like ranges and the description like a count |
| `ModuleText.TextDeterminesTree` | vllm/model_inspection.py:61-131 | trees with the same printed lines mean the same |
| `ModuleText.TextDeterminesPlainTree` | vllm/model_inspection.py:61-131 | the same without exception for descriptions that begin neither with a space nor with a digit |
| `ModuleText.SharesTextIffAmbiguous` | vllm/model_inspection.py:114-128 | a child that is not a number shares its text with a tree that means something else if and only if its name looks like several indices and its description begins with their number |
| `ModuleText.TwoChildrenOrOne` | vllm/model_inspection.py:117-128 | a child "0-1" described as "2 x Foo()" prints like two children Foo(); the class of such a child is made by type() |
| `ModuleText.PrintedNetworks` | vllm/model_inspection.py:61-131 | the lines of a network with equal layers 0, 1 and 3, and of one with a named child |
| `BadWords.PrefixMatches` | vllm/logits_process.py:70-80 | the comparison of prefixes decides whether a token completes a word |
| `BadWords.BannedByBias` | vllm/logits_process.py:64-104 | the two biases together ban exactly the tokens that complete a word |
| `BadWords.NoBadWordsLogitsProcessor.CheckTokenIdsBounds` | vllm/logits_process.py:106-121 | it raises exactly when some token is out of the vocabulary |
| `BadWords.NoBadWordsLogitsProcessor.InitWordBias` | vllm/logits_process.py:89-104 | the kept bias is minus infinity for the one-token words and zero elsewhere |
| `BadWords.NoBadWordsLogitsProcessor.LastTokenBias` | vllm/logits_process.py:64-83 | the bias of the call bans the tokens that complete a longer word; it raises exactly for an empty word |
| `BadWords.NoBadWordsLogitsProcessor.Call` | vllm/logits_process.py:56-87 | every logit is masked exactly when its token completes a bad word; exactly when the call raises; the bias is made once |
| `BadWords.BannedIffBadWord` | vllm/logits_process.py:56-87 | some pick completes a bad word if and only if a bad word is in the output |
| `BadWords.Replay` | vllm/logits_process.py:56-87 | a whole run over one processor: exactly when it passes and exactly when it raises; passing picks give no bad word, and a refused pick, with its logit above minus infinity, means a bad word |
| `FlatLogprobs.AppendPosition` | vllm/logprobs.py:63-72 | rows added at the end are one more position and change no other |
| `FlatLogprobs.SliceRows` | vllm/logprobs.py:121-133 | cutting the rows and shifting the ranges gives the selected positions |
| `FlatLogprobs.SliceIsContiguous` | vllm/logprobs.py:121-133 | neighbouring positions leave no unused rows |
| `FlatLogprobs.SelectedSteps` | vllm/logprobs.py:121-125 | a slice selects, in order, every position that a number of steps from its first one reaches before its stop, with negative, omitted and outlying bounds |
| `FlatLogprobs.ForwardSliceStands` | vllm/logprobs.py:121-133 | a slice that goes up stands for the slice of the list |
| `FlatLogprobs.BackwardSliceReads` | vllm/logprobs.py:121-133 | in a slice that goes down over several positions, a position can be read if and only if it has no rows |
| `FlatLogprobs.FlatLogprobs.constructor` | vllm/logprobs.py:50-61 | the empty container stands for the empty list |
| `FlatLogprobs.FlatLogprobs.Append` | vllm/logprobs.py:63-72 | the list with one more dictionary; None and the empty dictionary are the same |
| `FlatLogprobs.FlatLogprobs.AppendFast` | vllm/logprobs.py:74-93 | the list with the dictionary of the zipped lists, cut at the shortest |
| `FlatLogprobs.FlatLogprobs.Extend` | vllm/logprobs.py:95-98 | the list with all the dictionaries |
| `FlatLogprobs.FlatLogprobs.GetItem` | vllm/logprobs.py:110-120 | what any position reads as, also when its range does not fit; for a valid container the element of the list, with negative indices and IndexError as for a list |
| `FlatLogprobs.FlatLogprobs.Slice` | vllm/logprobs.py:121-133 | for every start, stop and step: exactly when it raises; the slice of the list when it goes up or selects one position; and how a slice that goes down reads |
| `FlatLogprobs.FlatStep` | vllm/logprobs.py:63-133 | every operation does to the container what it does to the list, or raises, or slices backwards; the position that AppendNext adds has its tokens with their ranks |
| `FlatLogprobs.NextPositionHasRanks` | vllm/logprobs.py:178-206 | the next position holds exactly the first tokens, as many as asked for next to the sampled one and as there are values and decoded tokens; the first has the rank of the sampled token and token k the rank k, where it is not repeated later |
| `FlatLogprobs.DictHoldsLast` | vllm/logprobs.py:111-119 | a position holds exactly the tokens of its rows, each as its last row says |
| `FlatLogprobs.FlatRun` | vllm/logprobs.py:162-206 | every run of operations gives the same dictionaries on the container and on a list, up to the first operation that raises or slices several positions backwards; exactly when it raises |
| `FlatLogprobs.EmptySliceRaises` | vllm/logprobs.py:121-123 | a container of one position and a slice that selects nothing, for which it raises |
| `FlatLogprobs.BackwardSliceCannotBeRead` | vllm/logprobs.py:121-133 | a container of two positions with one token each; the first position of its backward slice cannot be read |
| `Int8Quant.SymmetricError` | vllm/_xpu_ops.py:285-302 | the rounded value is in range before the clamp, and within half a scale of the value |
| `Int8Quant.AsymmetricError` | vllm/_xpu_ops.py:285-302 | within half a scale even where the clamp changes the value; it never changes one below the range |
| `Int8Quant.QuantiseIsAccurate` | vllm/_xpu_ops.py:276-307 | every value of a row is recovered within half a scale |
| `Int8Quant.ScaleHasWidth` | vllm/_xpu_ops.py:285-295 | the scale is the largest magnitude of the row, or the largest difference of two values, over the number of steps, and at least 0.00001 |
| `Int8Quant.ErrorByWidth` | vllm/_xpu_ops.py:276-307 | the error of every value in terms of the row alone: at most half of that |
| `Int8Quant.LargestTakesAllSteps` | vllm/_xpu_ops.py:285-302 | in symmetric mode a value of the largest magnitude is quantised to the largest number, with its sign, unless the scale is at its least |
| `Int8Quant.LowestIsZero` | vllm/_xpu_ops.py:294-302 | with a zero point the lowest value of a row is quantised as zero |
| `Int8Quant.QuantiseIsDefined` | vllm/_xpu_ops.py:285-302 | for up to eight bits the result is defined if and only if the zero point fits into 32 bits |
| `Int8Quant.ZeroPointIsInRange` | vllm/_xpu_ops.py:285-296 | for a row with values on both sides of zero the zero point lies within the range of the quantised values |
| `Int8Quant.RowAroundZeroIsDefined` | vllm/_xpu_ops.py:276-307 | for up to eight bits such a row is always defined, and its zeros are recovered exactly |
| `Int8Quant.ZeroPointCanOverflow` | vllm/_xpu_ops.py:295-296 | a constant row of one million for which the zero point does not fit |

## Left out

- Sequence-parallel token sizes (vllm/forward_context.py), the sampler, the schedulers and the KV-cache managers: not modelled; the first would only add easy members.
- Graph partitions: names stand for nodes, the ordered sets are sets, and the symbol inputs of a signature are left out. How the generated caller runs the partitions (hand over the input nodes and constants, drop the freed inputs, then bind the outputs) is the reading used for the forward run.
- Memory planning: planning one line is a parameter, and the list of past states, which nothing reads, is left out.
- Build log: splitting a line, reading its numbers and the header are left out, and so is all printing and grouping by extension. Time stamps are real numbers.
- SummarizeEntries: the statement about the length asks for times that are not negative, because -1 and 0 are the starting values of the search for the extent.
- Allocator: the CUDA branch, my_free, the Python callbacks, failures of malloc and the loop counters of type int for more than 2^31 chunks are left out. ensure_context is one call. The driver may fail any call; its addresses do not wrap around, and whether access may be set is up to the driver. The access call reaches the mappings that lie within its range. The faults are a finite list, with none after its end; a run makes finitely many calls, so this leaves out no run.
- Bad words: splitting words into tokens is left out. Logits are exact numbers with the infinities and NaN. Broadcasting over a vocabulary of one token is left out.
- Quantiser: rounding of floating-point numbers and the cast of the scale to the type of the input are left out; one row stands for all rows.
- Module printer: the description of a module is a string without line breaks, int() is a parameter, and modules shared between parents are left out. The printed text is the list of lines; joining them into one string is left out.
- SameSignatureSameTree: asks for descriptions without line breaks, for names that PyTorch allows (not empty, no dot), and for no colon after the first character of a name. The last is exact by CollidesIffColon; the others are not.
- DocMeansTree: a meaning has the indices of the numbered children but neither their order nor the spelling of their names ("01" and "1" are both 1), because the printed text has neither. The order of the printed groups is in DocGroupsAreSorted.
- TextDeterminesTree: asks in addition to the conditions of SameSignatureSameTree that no child is ambiguous (exact for one child by SharesTextIffAmbiguous), and excludes descriptions that begin with a space, which no class name gives.
- FlatRun: follows a run up to the first slice that goes backwards over several positions; how such a container behaves in later operations is left out.
- Flat log-probabilities: iterators that do not end are left out.
