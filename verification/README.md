# Verified model of the Lamellar runtime's core protocols

Lamellar is a PGAS runtime: processing elements (PEs) own memory, send each other active
messages (AMs) and share distributed reference-counted objects (Darcs). This project models
the parts of it where being right is hard, and proves what they are for. It has no
dependencies; `dafny verify dfyconfig.toml` checks all of it.

* **Barrier** (`BarrierConfig`, `Barrier`, `BarrierExact`, `BarrierProgress`). The n-way
  dissemination barrier as a transition system over all PEs, with puts in flight as messages.
  A barrier built with factor `n` and `R` rounds is safe in every run *if and only if*
  `(n+1)^R` is at least the team size. The constructor meets that bound when the factor is
  above 1 and the team has more than 2 PEs; with one peer per round it does so exactly for
  team sizes that are powers of two. With ordered delivery per slot, slot values never go
  down, PEs are never more than one barrier apart, and a barrier everybody has entered is
  completed within a bounded number of steps.
* **Darc** (`DarcCounts`, `DarcHandles`, `DarcQuiescence*`, `DarcWeak`, `DarcWeakRuns`). The counters of all PEs with handles
  and acknowledgements in flight; conservation of every distributed count over every run, and
  local counts equal to the handles counted from the steps of the run. The
  quiescence detector runs one read or put per step, interleaved with clones, drops,
  serializations and arrivals: all PEs leave its loop in the same iteration, and when one has
  left, no handle is in flight, none exists besides the callers', and all that arrived has been
  acknowledged. Conversely it ends: once handles are neither made nor in flight, no PE gets
  more than two iterations beyond the furthest one, every PE has a bounded number of steps
  left, and a run that cannot go on has everybody outside. The race of weak upgrades, drops
  and the clean-up task is modelled at single atomic operations.
* **Allocators** (`AllocLayout`, `AllocOwners`, `FreeEntries`, `BTreeHeap`, `BTreeRuns`,
  `BTreeAllocator`, `LinearAllocator`). For the B-tree allocator, every interleaving of calls
  at the granularity of its two locks: free, travelling and allocated blocks tile the managed
  range. Its class methods are proved to perform exactly those locked steps. The linear
  allocator is proved to be first fit against a reference that knows no gaps.
* **AM groups** (`AmGroupSplit`, `AmGroupCodec`, `AmGroupQueues`, `AmGroupResults`,
  `AmGroupDelivery`). Queues, splitting into requests, wire form, and lookup of results; from
  a queue to the receiver, and from a result vector back to the message that caused it.
* **Teams and requests** (`Arch`, `Requests`, `RequestRuns`). Id translation through any
  nesting of teams, and the outstanding-request counters, raw references and result slots
  over every interleaving of launches and deliveries.

Where the code does not meet the property one would expect of it, the model keeps the code and
the exact condition is proved:

| behaviour | exact condition | member |
|---|---|---|
| A PE can leave a barrier that another has not entered (3 PEs, one peer per round). | safe iff factor above 1 and more than 2 PEs, or the team size is a power of two | `BarrierExact.ConstructedBarrierSafeIff` |
| The clean-up of a Darc frees the item with a serialized handle under way. | not so iff what was serialized between its load of the distributed count and its load of the local count has been acknowledged | `DarcWeakRuns.ItemFreedDist` |
| A freed block is not joined to a free block on its left. | joined completely iff its padding is 0 or there is no such block | `BTreeRuns.GiveCoalescesIff` |
| A merge pass over an empty free map underflows. | panics iff the free map is empty | `BTreeAllocator.BTreeAlloc.TryMalloc` |
| On an empty list the linear allocator serves requests longer than its region. | in bounds iff not `max < size + padding <= start + max` | `LinearAllocator.LinearAlloc.TryMalloc` |
| Freeing an unknown address can underflow. | iff some entry's padding exceeds the address | `LinearAllocator.LinearAlloc.Free` |
| The splitting loop sends empty requests forever. | ends iff every message is below 100,000,000 bytes | `AmGroupSplit.EndsIff` |
| Messages without size at the end of a queue are never sent. | sent iff the last message has a size or something waits with it | `AmGroupSplit.Split` |
| A nested team is accepted although its members do not resolve, or refused although they do. | resolve iff the last member is a member of the parent | `Arch.ResolveIff` |
| Team ids and parent ids of one level are not inverse. | inverse iff it is not a strided team with members and stride 0 | `Arch.InverseIff` |

## Model
| member | source | states |
|---|---|---|
| `BarrierConfig.CeilLogFrom` | src/barrier.rs:42-43 | the number of rounds is the least `k` with `b^k` at least the team size |
| `BarrierConfig.FloorLog2From` | src/barrier.rs:44-47 | with one peer per round, the largest `k` with `2^k` at most the team size |
| `BarrierConfig.NewConfig` | src/barrier.rs:37-47 | with a factor above 1 and more than 2 PEs the factor is kept and the rounds are the least `k` with `factor^k` at least the team size; otherwise one peer and `2^rounds <= size < 2^(rounds+1)` |
| `BarrierConfig.NewConfigCoversIff` | src/barrier.rs:37-47 | the rounds chosen reach every PE exactly when the factor is above 1 on a team of more than 2, or the team size is a power of two |
| `BarrierConfig.SlotHasOneWriter` | src/barrier.rs:192-235 | PE `p` puts to slot `(i, round)` of `q` exactly when `q` waits there for `p`: send and receive neighbours are inverse, so a slot has one writer |
| `Barrier.PollExtends` | src/barrier.rs:226-262 | passing one poll extends the distance within which everybody is known to have entered by one more stride |
| `Barrier.RunInv` | src/barrier.rs:169-268 | in every run, at every place of the nested loops, all PEs within the horizon of that place have entered, and every slot value was put by its writer in that round |
| `Barrier.SafeState` | src/barrier.rs:190-266 | when the rounds reach every PE, nobody has left a barrier that somebody has not entered |
| `BarrierExact.SafeIffCovers` | src/barrier.rs:190-266 | every run is safe if and only if `(n+1)^R` is at least the team size; the converse builds, for every failing configuration, a run in which PE 0 leaves alone |
| `BarrierExact.ConstructedBarrierSafeIff` | src/barrier.rs:37-47 | safety of the barriers the constructor builds, as a condition on team size and factor |
| `BarrierExact.ThreePesOnePeerUnsafe` | src/barrier.rs:44-47 | three PEs with one peer per round: some run is unsafe |
| `BarrierProgress.FifoStep` | src/barrier.rs:190-222 | with puts to a slot landing in order, no slot value ever goes down, and the newest value of a slot is what its writer last sent |
| `BarrierProgress.SkewAtMostOne` | src/barrier.rs:181-266 | in every run the barrier ids of two PEs differ by at most one |
| `BarrierProgress.Unblock` | src/barrier.rs:223-262 | while somebody is inside a barrier all have entered, some put, landing or poll can be taken |
| `BarrierProgress.StepUsesMeasure` | src/barrier.rs:190-266 | every step but entering a barrier uses up part of a fixed supply |
| `BarrierProgress.BarrierCompletes` | src/barrier.rs:190-266 | once all PEs have entered, every continuation is bounded in length and can only stop with everybody out |
| `DarcCounts.DarcInner.constructor` | src/darc.rs:891-947 | a new Darc has one local handle and no counts |
| `DarcCounts.DarcInner.IncPeRefCount` | src/darc.rs:318-338 | adds to the sender's reference count and its monotone shadow, and returns the count before |
| `DarcCounts.DarcInner.SerializeUpdateCnts` | src/darc.rs:757-767 | serializing adds to the distributed count and its shadow, and to nothing else |
| `DarcCounts.DarcInner.DeserializeUpdateCnts` | src/darc.rs:770-778 | an arriving handle is counted for its sender and as a local handle |
| `DarcCounts.DarcInner.Clone` | src/darc.rs:1062-1072 | cloning adds one local handle and leaves the distributed counts alone |
| `DarcCounts.DarcInner.SendFinished` | src/darc.rs:354-393 | every reference count is swapped to 0 and one acknowledgement per non-zero count is sent, in PE order |
| `DarcCounts.DarcInner.Drop` | src/darc.rs:1143-1162 | only the drop of the last local handle acknowledges, and then all that is unacknowledged |
| `DarcCounts.DarcInner.FinishedExec` | src/darc.rs:106-114 | an acknowledgement takes its count off the distributed count |
| `DarcCounts.PostedAcks` | src/darc.rs:354-393 | the messages a sweep produces, added one by one, are what the team model puts in flight |
| `DarcCounts.StepInv` | src/darc.rs:106-114 | every step keeps, for every PE: distributed count = in flight + held and unacknowledged + being acknowledged, and the same for the shadows |
| `DarcCounts.RunInv` | src/darc.rs:757-778 | the conservation laws hold in every reachable state |
| `DarcCounts.FinishedNeverUnderflows` | src/darc.rs:106-114 | no acknowledgement ever takes a distributed count below zero |
| `DarcCounts.DistZeroIff` | src/darc.rs:1358-1361 | a distributed count is zero exactly when nothing its PE serialized is in flight, unacknowledged or being acknowledged |
| `DarcCounts.CountsReturnToZero` | src/darc.rs:1143-1162 | when the last handle is gone everywhere and all messages have arrived, every distributed count is zero |
| `DarcHandles.LocalCountsHandles` | src/darc.rs:1062-1072 | in every run a PE's local count is its first handle, plus clones and arrivals, less drops, counted from the steps; its totals are all it ever got and sent |
| `DarcHandles.TrafficIsCounted` | src/darc.rs:757-778 | in every run what is in flight between two PEs is what one sent less what arrived, and arrivals are counted for their sender |
| `DarcHandles.LastDropAcknowledges` | src/darc.rs:1143-1162 | the drop of the last existing handle, and no other, acknowledges, and then everything |
| `DarcQuiescenceLocal.NextLocalInv` | src/darc.rs:464-597 | what one PE's step keeps of its own variables: barriers entered fix its iteration, the advertised id is 0 exactly when it saw something outstanding, snapshots lag behind counters, its slots hold its snapshots |
| `DarcQuiescenceLocal.EnvLocalInv` | src/darc.rs:464-597 | the same survives whatever handles do in the meantime |
| `DarcQuiescenceProof.NobodyPuts` | src/darc.rs:549-577 | while a PE may read the ids of its iteration nobody is putting ids: no fast PE overwrites a slot a slow one has yet to read |
| `DarcQuiescenceProof.SameIds` | src/darc.rs:575-577 | all PEs see the same ids |
| `DarcQuiescenceProof.NobodyDoomedIsQuiescent` | src/darc.rs:471-545 | with everybody in the first barrier, either somebody is bound to flag outstanding references in this iteration or nothing is in flight and only the callers hold handles |
| `DarcQuiescenceProof.TraceInv` | src/darc.rs:454-597 | the invariant of the detector in every run |
| `DarcQuiescenceProof.ExitMeansQuiescent` | src/darc.rs:464-597 | in every run in which callers hold all the handles their PE does not wait for and keep them to themselves: once a PE has left the loop, no handle is in flight between any two PEs and no PE holds one besides its caller's |
| `DarcQuiescenceAcks.ExitMeansAcknowledged` | src/darc.rs:464-471 | under the same assumption, once a PE has left no PE holds an unacknowledged count, so distributed counts are what acknowledgements under way carry |
| `DarcQuiescenceIteration.IterationDecides` | src/darc.rs:466-597 | whatever happens meanwhile, a PE advertises 0 exactly if one of its steps up to the last check found a count that differs from the previous iteration's, a local, distributed or reference count that grew since its snapshot, or a slot sum other than what was sent; it leaves exactly if none of its steps found one or read a 0 |
| `DarcQuiescenceExit.DetectorEnds` | src/darc.rs:464-597 | once no handle is in flight and none is made or sent: no PE gets beyond iteration `k + 2` when none was beyond `k`, every PE makes a bounded number of steps, and while somebody is not out and no PE has too many local handles, some PE can go on |
| `DarcQuiescenceExit.SomebodyCanGo` | src/darc.rs:454-597 | the detector never deadlocks |
| `DarcQuiescenceProof.ExitAgreement` | src/darc.rs:466-597 | without that assumption too: when a PE has left, all PEs are in the same iteration, have entered the same number of barriers and can only leave |
| `DarcWeak.RunInv` | src/darc.rs:246-280 | the local count is the handles plus the operations that have added and not yet taken back; borrowed weak handles are not dropped; the clean-up is launched at most once |
| `DarcWeak.NoHandleAfterItemFreed` | src/darc.rs:1356-1395 | when the item is freed no strong handle exists, from an upgrade or otherwise, and every upgrade still to be decided will fail |
| `DarcWeak.NoWeakAfterMemoryFreed` | src/darc.rs:1396-1405 | the memory is released only when every weak handle is gone and no upgrade is under way through one |
| `DarcWeak.LaunchedExactlyOnce` | src/darc.rs:1112-1200 | however drops race, at most one clean-up is launched, and with no handle left and nothing under way it has been |
| `DarcWeakRuns.HandlesCounted` | src/darc.rs:246-262 | in every run the handles are the first one, clones and upgrades that read the flag before it was cleared, less drops begun, counted from the steps |
| `DarcWeakRuns.UpgradeSucceedsIff` | src/darc.rs:251-260 | an upgrade that reads the flag before the clean-up clears it yields a handle, a later one yields none and takes its count back |
| `DarcWeakRuns.WeaksCounted` | src/darc.rs:263-280 | in every run the weak count is the weak handles made less those dropped |
| `DarcWeakRuns.CleanUpGoesOnIff` | src/darc.rs:1357-1399 | each load lets the clean-up go on exactly when nothing is left to wait for: no serialized handle, no handle or operation counted as one, no weak handle |
| `DarcWeakRuns.ItemFreedDist` | src/darc.rs:1358-1361 | the item is freed with a distributed count of zero exactly when what was serialized between the two loads is acknowledged; so it is if no handle existed at the first load |
| `DarcWeakRuns.LateSendLeavesDist` | src/darc.rs:1358-1361 | a run in which a handle is serialized and dropped between the two loads and the item is freed |
| `AllocLayout.CalcPadding` | src/lamellar_alloc.rs:37-44 | the padding is below the alignment and makes the address a multiple of it |
| `AllocLayout.PaddingIsLeast` | src/lamellar_alloc.rs:37-44 | no smaller padding would do |
| `FreeEntries.RemovedAgree` | src/lamellar_alloc.rs:220-231 | taking a block out of both indexes leaves them in agreement, without an empty size bucket |
| `FreeEntries.CoalescedAgree` | src/lamellar_alloc.rs:200-213 | so does joining two adjacent blocks |
| `FreeEntries.Merged` | src/lamellar_alloc.rs:195-218 | a merge pass keeps the indexes in agreement and ends with one block or with two lowest blocks that do not touch |
| `FreeEntries.MergedShape` | src/lamellar_alloc.rs:195-218 | it turns exactly the leading run of touching blocks into one block and leaves every other block alone |
| `BTreeHeap.CarveInv` | src/lamellar_alloc.rs:300-331 | cutting a request off a free block keeps the heap tiled and the indexes in agreement |
| `BTreeHeap.CommitInv` | src/lamellar_alloc.rs:350-363 | so does recording it under the other lock |
| `BTreeHeap.TakeInv` | src/lamellar_alloc.rs:388-395 | so does withdrawing an allocation |
| `BTreeHeap.GiveInv` | src/lamellar_alloc.rs:397-440 | so does giving it back with its padding and joining neighbours |
| `BTreeHeap.MergeInv` | src/lamellar_alloc.rs:195-218 | so does a merge pass, over the same bytes |
| `BTreeRuns.Run` | src/lamellar_alloc.rs:288-486 | in every interleaving of calls at lock granularity, free, travelling and allocated blocks tile the managed range, the two indexes agree and the space counter is balanced |
| `BTreeRuns.OneOwnerPerByte` | src/lamellar_alloc.rs:288-486 | every byte of the range, and no other, belongs to exactly one block |
| `BTreeRuns.CarveGives` | src/lamellar_alloc.rs:300-331 | the address handed out is aligned and all its bytes are in the range |
| `BTreeRuns.MergeJoinsLeadingRun` | src/lamellar_alloc.rs:195-218 | so does every merge pass of every run |
| `BTreeRuns.SpaceIsExact` | src/lamellar_alloc.rs:488-493 | occupied bytes are the allocated blocks with their paddings; with no call under way the counter is the sum of the free blocks |
| `BTreeRuns.GiveCoalescesIff` | src/lamellar_alloc.rs:403-428 | giving a block back keeps free blocks from touching exactly when its padding is 0 or no free block ends where it begins |
| `BTreeRuns.UnpaddedRunCoalesces` | src/lamellar_alloc.rs:397-440 | in every run that needs no padding no two free blocks ever touch |
| `BTreeRuns.EverythingFreedCoalesces` | src/lamellar_alloc.rs:671-681 | when such a run has freed everything, the free map is what it was in the beginning |
| `BTreeRuns.PaddedBlockMissesLeftNeighbour` | src/lamellar_alloc.rs:405-412 | a concrete padded block that comes back beside its free left neighbour and is not joined |
| `BTreeAllocator.BTreeAlloc.constructor` | src/lamellar_alloc.rs:259-271 | initially one free block, the whole range |
| `BTreeAllocator.BTreeAlloc.RemoveSize` | src/lamellar_alloc.rs:220-231 | an address leaves its size bucket, and an emptied bucket goes |
| `BTreeAllocator.BTreeAlloc.Merge` | src/lamellar_alloc.rs:195-218 | fails exactly on an empty map, otherwise computes the merged map; terminates |
| `BTreeAllocator.BTreeAlloc.FindBlock` | src/lamellar_alloc.rs:296-347 | finds a block exactly when, before or after a merge pass, some free block has at least `size + align - 1` bytes; at most two passes of the loop |
| `BTreeAllocator.BTreeAlloc.TryMalloc` | src/lamellar_alloc.rs:288-370 | succeeds exactly when, before or after a merge pass, some free block has at least `size + align - 1` bytes; takes a smallest such block, hands out an aligned address, records it, and has the effect of the two locked steps; panics exactly when the map is empty |
| `BTreeAllocator.BTreeAlloc.FakeMalloc` | src/lamellar_alloc.rs:372-386 | the probe answers what the allocation would, in the same terms, and leaves at most a merge pass behind |
| `BTreeAllocator.BTreeAlloc.Free` | src/lamellar_alloc.rs:388-486 | succeeds exactly on allocated addresses, with the effect of the two locked steps |
| `BTreeAllocator.BTreeAlloc.GiveBack` | src/lamellar_alloc.rs:403-440 | the in-place update of both indexes is the joining the concurrent model describes |
| `BTreeAllocator.BTreeAlloc.SpaceAvail` | src/lamellar_alloc.rs:488-490 | between calls the counter is the sum of the free blocks |
| `BTreeAllocator.BTreeAlloc.Occupied` | src/lamellar_alloc.rs:491-493 | between calls it is the sum of allocated sizes and paddings |
| `LinearAllocator.FirstFit` | src/lamellar_alloc.rs:84-96 | the gap the search stops at serves the request exactly when some free aligned address could, and its address is the lowest such address |
| `LinearAllocator.PlacedSorted` | src/lamellar_alloc.rs:98-106 | the new entry keeps the list sorted and disjoint, and in bounds exactly when it is |
| `LinearAllocator.PlaceThenRemove` | src/lamellar_alloc.rs:154-172 | removing an entry just placed restores the list |
| `LinearAllocator.HandlesDistinct` | src/lamellar_alloc.rs:158-160 | entries that hold bytes were handed out under different addresses, so a free names exactly its own entry |
| `LinearAllocator.PaddingsBelow` | src/lamellar_alloc.rs:157-158 | searching for a handed-out address never underflows |
| `LinearAllocator.SizesFit` | src/lamellar_alloc.rs:173-178 | sorted entries in bounds take no more than the region |
| `LinearAllocator.OverlongExists` | src/lamellar_alloc.rs:107-117 | the wrong guard bites for every region that does not start at address 0 |
| `LinearAllocator.LinearAlloc.constructor` | src/lamellar_alloc.rs:59-64 | initially no entries |
| `LinearAllocator.LinearAlloc.FindGap` | src/lamellar_alloc.rs:84-96 | the loop stops at the first gap that holds the request, or behind the last entry |
| `LinearAllocator.LinearAlloc.TryMalloc` | src/lamellar_alloc.rs:74-122 | the lowest free aligned address, refused only when there is none; out of bounds exactly for overlong requests on an empty list |
| `LinearAllocator.LinearAlloc.FakeMalloc` | src/lamellar_alloc.rs:124-152 | the probe answers exactly when the allocation would succeed |
| `LinearAllocator.LinearAlloc.Free` | src/lamellar_alloc.rs:154-172 | succeeds exactly on handed-out addresses, removing the first entry with that address; underflows exactly when an entry's padding exceeds an unknown address |
| `LinearAllocator.LinearAlloc.SpaceAvail` | src/lamellar_alloc.rs:173-175 | the counter and the entries add up to the region; never negative while in bounds |
| `LinearAllocator.LinearAlloc.Occupied` | src/lamellar_alloc.rs:176-178 | the sum of sizes and paddings |
| `AmGroupSplit.EndsIff` | src/lamellar_task_group.rs:1148-1184 | the splitting loop ends exactly when every message is below the hard limit |
| `AmGroupSplit.StepKeepsInv` | src/lamellar_task_group.rs:1148-1184 | each iteration keeps requests contiguous, non-empty and under the limit |
| `AmGroupSplit.StepKeepsPaid` | src/lamellar_task_group.rs:1148-1184 | requests are paid for by the bytes they carry, also when the hard limit cuts one short |
| `AmGroupSplit.Split` | src/lamellar_task_group.rs:1141-1220 | the requests are non-empty, contiguous from the first message, each under 100,000,000 bytes, at most total/1,000,000 + 1 of them; without its last message none exceeds the target size, and all but the last exceed it or are cut by the limit; what is left out has no size, and nothing is left out exactly when the last message has a size or something waits with it |
| `AmGroupSplit.TakeAll` | src/lamellar_task_group.rs:1148-1184 | the loop ends with every message taken and the bookkeeping above |
| `AmGroupSplit.ChainCarries` | src/lamellar_task_group.rs:1162-1166 | such requests carry each message they reach once and in order |
| `AmGroupSplit.SizelessTailLost` | src/lamellar_task_group.rs:1185-1185 | a message without size behind one that is sent at once is lost |
| `AmGroupCodec.LittleEndianRoundTrip` | src/lib.rs:334-344 | fixed-width integers are read back as written |
| `AmGroupCodec.LittleEndianByte` | src/lib.rs:334-344 | byte `i` is digit `i` to base 256, lowest first |
| `AmGroupCodec.IdRoundTrip` | src/lamellar_task_group.rs:848-849 | so are message ids, negative ones included |
| `AmGroupCodec.RoundTrip` | src/lamellar_task_group.rs:836-864 | with self-delimiting message codecs, unpacking an encoded list gives the list, whatever follows it |
| `AmGroupCodec.DecodedIff` | src/lamellar_task_group.rs:836-864 | with codecs that accept only what they write, unpacking gives `ams` exactly on byte strings that begin with the encoding of `ams` |
| `AmGroupCodec.Unpack` | src/lamellar_task_group.rs:836-864 | the unpacking loop computes the reference reader, panics included |
| `AmGroupCodec.SerializedSize` | src/lamellar_task_group.rs:745-754 | the announced size is the number of bytes written: 8 for the count, 4 for each id, and each message's own |
| `AmGroupCodec.SerializeInto` | src/lamellar_task_group.rs:755-769 | the buffer begins with the encoding and is otherwise unchanged |
| `AmGroupCodec.Serialize` | src/lamellar_task_group.rs:770-775 | the bytes of a request decode to exactly its messages |
| `AmGroupQueues.QueuesPartition` | src/lamellar_task_group.rs:1019-1084 | every message number is in exactly one queue, once |
| `AmGroupQueues.AmGroup.constructor` | src/lamellar_task_group.rs:970-976 | a new group is empty |
| `AmGroupQueues.AmGroup.AddAmAll` | src/lamellar_task_group.rs:1019-1033 | the message is added under the next number for all members |
| `AmGroupQueues.AmGroup.AddAmPe` | src/lamellar_task_group.rs:1075-1084 | the message is added under the next number for its member |
| `AmGroupQueues.SendQueue` | src/lamellar_task_group.rs:1141-1229 | the requests of one queue carry its messages |
| `AmGroupQueues.AmGroup.Exec` | src/lamellar_task_group.rs:1130-1240 | executing sends, for every queue, what was added since the last execution, and leaves the numbers and the sizes of all that was ever added behind |
| `AmGroupDelivery.GroupDelivered` | src/lamellar_task_group.rs:836-864 | the receiver gets exactly the queued messages in order, if and only if the queue fits one request or nothing is lost by splitting |
| `AmGroupResults.BinarySearch` | src/lamellar_task_group.rs:1503-1503 | finds a number in an increasing list exactly when it is there |
| `AmGroupResults.QueuesAnswer` | src/lamellar_task_group.rs:1019-1084 | batches made from the queues of a group hold every number, under its destination |
| `AmGroupResults.AtVal` | src/lamellar_task_group.rs:1495-1521 | for every index the lookup returns the results of the message added under that number from the members it was sent to, and never reaches its final panic |
| `AmGroupResults.AtUnit` | src/lamellar_task_group.rs:1538-1561 | the same for batches of unit results |
| `Arch.InverseIff` | src/lamellar_arch.rs:241-461 | the two maps of one level are inverse exactly when it is not a strided team with members and no stride |
| `Arch.NestedInverse` | src/lamellar_arch.rs:165-187 | through any nesting, a team id names a world id exactly when that world id names it |
| `Arch.NewStrided` | src/lamellar_arch.rs:318-329 | the loop ends at the last member's id |
| `Arch.NewBlocked` | src/lamellar_arch.rs:413-419 | no result exactly for an empty block at id 0; otherwise member `t` of the requested number has parent id `start + t` |
| `Arch.NewTeam` | src/lamellar_arch.rs:138-162 | refuses empty teams and, by comparing the ends of the two arches, subteams that stick out; an accepted subteam of the world ends below the world's size |
| `Arch.AcceptsIff` | src/lamellar_arch.rs:138-162 | a team is accepted exactly if it has members, not more than its parent, and all their ids lie between the ends of the parent's own arch |
| `Arch.RootAcceptsIff` | src/lamellar_arch.rs:138-162 | of the non-empty teams, exactly those whose members all resolve are accepted as subteams of the world |
| `Arch.ErrorsName` | src/lamellar_arch.rs:342-373 | an error names the id that was asked for |
| `Arch.RootSubteamFits` | src/lamellar_arch.rs:147-154 | so subteams of the world always fit |
| `Arch.ResolveIff` | src/lamellar_arch.rs:165-172 | the members of a subteam of a fitting team all resolve exactly when its last member is a member of the parent |
| `Arch.NestedCheckMisses` | src/lamellar_arch.rs:147-154 | below the world the constructor compares ids of different teams: it accepts a subteam that does not resolve and refuses one that does, for every even world |
| `Arch.LevelResolves` | src/lamellar_arch.rs:318-329 | the first member of a team has its start as parent id, the last its end, and the others lie between |
| `Arch.LevelSpacing` | src/lamellar_arch.rs:342-352 | consecutive members of a strided team are a stride apart, of the others next to each other |
| `Arch.MembersIncrease` | src/lamellar_arch.rs:165-172 | world ids increase with team ids |
| `Arch.TeamIter.constructor` | src/lamellar_arch.rs:189-205 | an iterator starts where it is told |
| `Arch.TeamIter.Next` | src/lamellar_arch.rs:216-233 | yields the current member's world id, if it resolves, and moves on |
| `Arch.TeamIds` | src/lamellar_arch.rs:189-233 | a fitting team's iterator yields exactly its members' world ids, strictly increasing, one per member; in general it yields all of them exactly when all resolve |
| `Requests.StepConserves` | src/lamellar_request.rs:57-86 | every step changes each counter by what it changes in the results not yet off that counter |
| `Requests.StepInv` | src/lamellar_team.rs:1365-1432 | every step keeps counters, references, the caller's count and the result slots exact |
| `RequestRuns.Run` | src/lamellar_team.rs:1365-1432 | so do all runs |
| `RequestRuns.CountersExact` | src/lamellar_request.rs:238-263 | in every run each team, world and group counter is the number of results that have not left it, never negative, and zero exactly when none is on its way |
| `RequestRuns.WaitAllArrives` | src/lamellar_team.rs:1305-1325 | when a request's team counter, group counter or the world counter is read as zero after it was submitted, it has all its results, and a caller that holds it reads zero, then and later |
| `RequestRuns.ResultGoesOn` | src/active_messaging.rs:1227-1232 | a result that has not been released can always go on |
| `RequestRuns.AllReleased` | src/lamellar_request.rs:57-86 | when all have, every counter is zero, no reference is left and every held handle reads zero |
| `RequestRuns.ReferencesExact` | src/active_messaging.rs:1227-1232 | the raw references to a request are its results not yet released: deliveries find it alive and the last one frees it |
| `RequestRuns.ZeroMeansComplete` | src/lamellar_request.rs:314-338 | in every run a caller that holds a request to all members and reads zero has a complete request |
| `RequestRuns.ResultVector` | src/lamellar_request.rs:314-338 | a complete request to all members has one entry per member, entry `i` being what team member `i` sent |
| `RequestRuns.AmCounters.constructor` | src/active_messaging.rs:930-935 | counters start at zero |
| `RequestRuns.AmCounters.AddSendReq` | src/active_messaging.rs:936-940 | both counters grow by the number of results to come |
| `RequestRuns.MultiRequest.constructor` | src/lamellar_team.rs:1383-1392 | a request to all members awaits one result per member |
| `RequestRuns.MultiRequest.AddResult` | src/lamellar_request.rs:244-248 | a result is kept under its sender's team id; a sender outside the team is a panic |
| `RequestRuns.MultiRequest.UpdateCounters` | src/lamellar_request.rs:250-263 | one result leaves each counter |
| `RequestRuns.MultiRequest.Deliver` | src/lamellar_request.rs:57-86 | a caller that holds the handle gets the result; the counters are updated in either case |
| `RequestRuns.MultiRequest.Get` | src/lamellar_request.rs:314-338 | the drained vector holds slot `k` at index `k`; it panics exactly when a slot below the number of entries is missing |

## Left out
- The single-PE branch of the quiescence detector (src/darc.rs:423-431) and what follows its loop (mode puts and the wait for them, src/darc.rs:600-658): easy members.
- DarcQuiescenceProof.ExitMeansQuiescent: assumes that callers hold all of their `1 + extra_cnt` handles during the call. The clean-up after the last drop holds none while its wait tolerates one, so nothing is claimed for it; only ExitAgreement covers it.
- DarcQuiescenceProof.ExitMeansQuiescent: no weak upgrade happens during the call; weak handles are modelled in `DarcWeak`, on one PE, where handles are serialized and acknowledged but none arrives, and the detector that precedes the clean-up is a wait of any length.
- DarcQuiescenceExit.DetectorEnds: the bound is relative to the furthest PE; a PE one iteration behind it may go through three more.
- DarcCounts.RunInv: each Darc operation is one step of the team model, and `total_ref_cnt` is zero initially, which the constructor's loops (src/darc.rs:936-947) do not establish themselves.
- Puts of the detector land before the barrier that follows their flush; they are modelled as direct writes.
- The item type changes of `into_localrw` and `into_globalrw`, and the read-write Darcs.
- BarrierConfig.CeilLogFrom: reads the floating-point logarithms of src/barrier.rs:43 and :46 as exact; rounding of `f64` is not modelled.
- One thread per PE and barrier is assumed; the panic flag, timeouts and the wait function are left out.
- BTreeAllocator.BTreeAlloc.TryMalloc: positive sizes and alignments; machine-word overflow is not modelled, and which address of a size bucket is popped is arbitrary, where the source takes the last of an insertion-ordered set.
- The waiting loops of `malloc`, the condition variables and their timeouts, `LinearAlloc`'s unused `last_idx`, and `ObjAlloc`, a plain stack.
- AmGroupQueues.AmGroup.Exec: queues are taken in any order, the source takes them in ascending order; sending and awaiting the requests is not part of it.
- Message codecs, `serde` and `bincode` internals: a registry of codecs is a parameter, and self-delimitation is a hypothesis. Reference counting of Darcs inside messages (`DarcSerde`) is not modelled here.
- AmGroupResults.AtVal: how batches are built by generated code is not part of this model; batches are required to answer the numbers of the group.
- Dynamic, user-defined team shapes; the dispatch over the kinds of shapes.
- Requests.StepInv: teams fit and have at least one member; each destination returns one result. A launch that panics on a destination outside the team (src/lamellar_team.rs:1535) leaves its group counter raised and is not a step of the model.
- Results that carry Darcs or memory regions (src/lamellar_request.rs:67-81), the conversion of results to their types, and requests of a task group, which share one reference per group.
- Distributed arrays, memory regions, the network layers, schedulers, world set-up and configuration.
