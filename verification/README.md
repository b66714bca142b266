# oneCCL communicator layer: a verified model

This project models the parts of oneCCL's communicator layer whose correctness spans several ranks,
threads or calls, and proves what they promise. It covers five areas.

1. **Communicator ids.** Members gather their tables of free ids, pick the lowest id free everywhere
   and acquire it; handles are copied and destroyed later, process by process. `CommIdStorage` holds the
   table and the scan, `CommIdProtocol` the interleaving of per-process steps.
2. **Tags and schedule ids.** `AtlTag` has the three bit layouts, truncation to a provider's largest tag and
   the power-of-two utility; `TagFields` says where each id stands in a tag; `SchedId` the wrapping 16-bit counters; `TagSafety` joins them with the
   communicator ids.
3. **Multi-threaded bring-up.** `MtInit` (one-time barrier and table allocation), `IpcExchange` (publish,
   wait, read), `OpIdHandOff` (sender to receiver), `SubComm` and `NodeRank` (local split and node ranks), over
   the barrier primitive in `ThreadBarrier`.
4. **Scale-out staging and in-place detection.** `ScaleoutStaging` packs device buffers into host memory and
   back; `InPlace` decides whether a buffer is the rank's own slot.
5. **Small state machines.** `HostBufs` (ring of scale-out buffers), `RtPattern` (kernel patterns),
   `DeviceIndex` and `DeviceText` (printer and parser, and what strings parse to).

Objects that the source updates in place are classes whose methods are proved against a function on the old
state, loops are loops with invariants, and concurrent code is a transition system whose steps are the
locked sections or the single shared accesses of the source. `dafny verify dfyconfig.toml` checks the project.

## What comes from outside

The transport's allgatherv delivers every member's contribution or reports failure, and a pthread barrier
lets nobody leave before all have arrived. The allocator's result, the environment's buffer size and the
aliasing switch are parameters. Addresses are natural numbers with null as 0; sizes and addresses are
taken not to overflow 64 bits. `std::sort` is modelled as stable (its comparison only sees equal keys here,
so the source relies on it leaving them in place). Ids, counters, tags and parsed numbers wrap or
saturate at the source's own widths; `atoll` saturates as in glibc.

## What turned out not to hold

Each of these is a lemma at a failing input with the exact condition next to it.

- Truncation and the layout can drop communicator bits. With the MPI layout only eight bits reach the tag, so ids
  equal modulo 256 share tags; and the MPI check accepts a largest tag of 0xFFFF, with which even ids 0 and 1 do
  (`AtlTag.CommsSeparatedIff`, `AtlTag.MpiCommIdsAlias`, `AtlTag.MpiShortTagsAlias`).
- The mask alone does not decide whether two ranks share a tag: with a largest tag that is not 2^k-1 a tag may fit
  although it has a bit past the mask (`TagFields.RanksSeparatedIff`, `TagFields.WindowSeparates`).
- A largest tag of 0 wraps the mask to all ones, and then `create` throws for every non-zero tag
  (`AtlTag.CreateThrowsIff`).
- The internal schedule counter starts in the middle of the range and climbs through the external ids and the ids
  reserved for point-to-point messages (`SchedId.SpacesMeetIff`, `SchedId.SpacesMeetEarly`,
  `TagSafety.InternalSchedulesClearIff`, `TagSafety.InternalSchedulesReachPt2pt`).
- The constructor that copies a base takes any id and no lock. Given the base's own id twice, by constructors that
  overlap or by one that comes later with the id read before, two live handles end with one id. Single ownership
  is kept exactly when the id is invalid, is a returned id given up with the call, or is the base's own id at that
  moment with no other copy of it in flight (`CommIdProtocol.CopyKeepsOwnershipIff`,
  `CommIdProtocol.OverlappingCopiesShareAnId`, `CommIdProtocol.StaleIdSharesAnId`). The callers in the repository
  pass a returned id (src/comm/comm.cpp:216, 232, src/unordered_coll/unordered_coll.cpp:33, 296) or the id of a base they have just made themselves
  (src/comm/comm.cpp:310-326).
- A creation with two ranks in one process never completes, because the process lock is held across the
  allgatherv (`CommIdProtocol.SharedProcessNeverCompletes`).
- A sender reads its operation id after unlocking and may return a later sender's id
  (`OpIdHandOff.SenderReturnsLatest`, `OpIdHandOff.OvertakenSender`).
- The node rank comes back, and the even and pair views name the right peers, only for callers on a full card or on
  the first one (`NodeRank.NodeRankRoundTripIff`, `IpcExchange.ViewsNameTheMembersIff`,
  `IpcExchange.PartCardMisnames`).
- The loop test for allgatherv takes a null buffer for in place, the closed form for reduce-scatter does not
  (`InPlace.ReduceScatterIsAllgathervSwapped`).
- The buffer ring hands a fourth request the oldest outstanding buffer again, and with nothing outstanding it
  accepts whatever the slot behind the index holds (`HostBufs.GetRefinesIff`, `HostBufs.PutRefinesIff`,
  `HostBufs.NullReturnAccepted`).
- Runtime patterns tell communicators apart by 16 bits of `global_current_id`. Only the multi-threaded path sets it;
  every communicator made by `init` keeps -1, so any two of them start with the same collective pattern. The
  multi-threaded path in turn never seeds the pattern counters, and two ranks whose counters differ do not match
  (`RtPattern.CommunicatorsApartIff`, `RtPattern.UnsetIdsMeet`, `RtPattern.FirstPairEqualIff`).
- A send by a rank whose number is 32 modulo 64 has the bits of a collective pattern
  (`RtPattern.SendLooksCollectiveIff`). The comment in the source draws three bits for the source rank; the
  code uses five, and the model follows the code.
- An unused sub-device prints as `*` and parses as 0. The largest 32-bit number, which marks an unused driver or
  device, does round-trip (`DeviceIndex.RoundTripIff`).

## Model

| member | source | states |
|---|---|---|
| `CommIdStorage.AtlCommIdStorage.constructor` | src/atl/atl_base_transport.hpp:25-30 | every one of the 1024 ids starts free |
| `CommIdStorage.AtlCommIdStorage.GetMap` | src/atl/atl_base_transport.hpp:34-36 | the snapshot is the table as it is |
| `CommIdStorage.AtlCommIdStorage.Acquire` | src/atl/atl_base_transport.hpp:38-43 | marks exactly the id taken; the invalid id does nothing; any other id out of range throws and changes nothing |
| `CommIdStorage.AtlCommIdStorage.Release` | src/atl/atl_base_transport.hpp:45-50 | marks exactly the id free, with the same two exceptions |
| `CommIdStorage.FindCommonFreeId` | src/atl/atl_base_comm.cpp:122-133 | the nested scan over the gathered tables computes the least id free on every member, or the invalid id |
| `CommIdStorage.CommonIdIsLeast` | src/atl/atl_base_comm.cpp:122-136 | the chosen id is free on all members and no smaller id is; there is one if and only if some id is free everywhere |
| `CommIdStorage.EnoughFreeIds` | src/atl/atl_base_comm.cpp:122-138 | creation succeeds whenever the members' taken ids add up to fewer than 1024 |
| `CommIdStorage.CreateCommId` | src/atl/atl_base_comm.cpp:74-141 | one member's call on whatever the allgatherv delivers: which exception or id, and that exactly that id is marked in its table, free before if its own map was among those gathered |
| `CommIdProtocol.EveryAcquiredIdIsFree` | src/atl/atl_base_comm.cpp:74-141 | in every run, disciplined or not, the id a member acquires is still free in its process's own table at that moment |
| `CommIdProtocol.AcquiredIdIsFree` | src/atl/atl_base_comm.cpp:74-141 | and nobody owns it |
| `CommIdProtocol.StepInvIff` | src/atl/atl_base_comm.cpp:62-141 | a step of creation, adoption, copying or destruction keeps lock, table and ownership consistent if and only if it is disciplined |
| `CommIdProtocol.RunInv` | src/atl/atl_base_comm.cpp:62-141 | the invariant holds in every state of every disciplined run over any processes |
| `CommIdProtocol.LiveIdsDiffer` | src/atl/atl_base_comm.cpp:62-141 | two live communicators of one process never have the same id, in every interleaving of disciplined steps |
| `CommIdProtocol.NoLeakNoDoubleRelease` | src/comm/comm.cpp:101-118 | once no constructor or creation is in flight, an id is marked taken if and only if exactly one live handle holds it |
| `CommIdProtocol.RunLinked` | src/atl/atl_base_comm.cpp:74-141 | in every run, disciplined or not, locks, snapshots and results stay consistent |
| `CommIdProtocol.MembersAgree` | src/atl/atl_base_comm.cpp:74-141 | in every run all ranks that left one creation got the same id, the least one free in all contributed tables |
| `CommIdProtocol.SharedProcessNeverCompletes` | src/atl/atl_base_comm.cpp:74-141 | in every run, with two ranks in one process no rank of the creation ever gets a result |
| `CommIdProtocol.SnapshotContributes` | src/atl/atl_base_comm.cpp:74-141 | in every run a snapshot contributes the process's table as it is and takes the lock |
| `CommIdProtocol.AcquireHandsOut` | src/atl/atl_base_comm.cpp:74-141 | in every run the acquire marks and returns exactly the common id, or without one nothing but drops the lock |
| `CommIdProtocol.HandleCarriesTheResult` | src/atl/atl_base_comm.cpp:261-290 | in every run a handle made from a returned id carries exactly the id of its creation, the caller has given it up, and no other handle changes |
| `CommIdProtocol.CopyCarriesTheArgument` | src/atl/atl_base_comm.cpp:261-290 | in every run a copy made with an explicit id carries that id, and nothing else changes hands |
| `CommIdProtocol.CopyDoneSettles` | src/comm/comm.cpp:101-118 | in every run a constructor resets the base exactly when the base still holds the same id |
| `CommIdProtocol.DestroyReleases` | src/atl/atl_base_comm.cpp:62-72 | in every run a destroyed handle is gone and exactly its id is free again |
| `CommIdProtocol.HandleKeepsItsId` | src/comm/comm.cpp:101-118 | in every run a handle keeps its id until it is destroyed or loses it to a finished copy with the same id |
| `CommIdProtocol.MembersHandlesAgree` | src/atl/atl_base_comm.cpp:74-141 | in every run all handles that members make from one creation, whenever and wherever, carry one id: the least one free in all contributed tables |
| `CommIdProtocol.CopyKeepsOwnershipIff` | src/comm/comm.cpp:101-118 | copying a base with any id keeps single ownership if and only if the id is invalid, a returned one given up with the call, or the base's own at that moment with no other copy of it in flight |
| `CommIdProtocol.OverlappingCopiesShareAnId` | src/comm/comm.cpp:101-118 | a run from the start in which two overlapping copies end as two live handles with one id |
| `CommIdProtocol.StaleIdSharesAnId` | src/comm/comm.cpp:101-118 | a run from the start in which two copies one after the other do, the second with the id the base had before the first |
| `AtlTag.Pof2` | src/common/utils/utils.cpp:26-38 | the shift loop ends and gives the largest power of two not above its argument, for every 64-bit number |
| `AtlTag.Pof2Unique` | src/common/utils/utils.cpp:26-38 | every power of two not above the number is not above that one |
| `AtlTag.MaskForIsTagMask` | src/comm/atl_tag.hpp:129-139 | the mask is the largest 2^k-1 not above the provider's largest tag, wrap at 2^64-1 included |
| `AtlTag.MakeTagCreator` | src/comm/atl_tag.hpp:129-139 | throws exactly below 32 tag bits; else the mask truncates as promised |
| `AtlTag.MakeMpiTagCreator` | src/atl/atl_base_comm.cpp:143-173 | the MPI check refuses exactly the providers that would cut the schedule id |
| `AtlTag.SupportedIsSound` | src/comm/atl_tag.hpp:61-125 | in all three layouts no field disturbs another and each id reads back in the bits kept, for every rank, negative ones included |
| `AtlTag.CreateThrowsIff` | src/comm/atl_tag.cpp:50-92 | a tag never exceeds the largest tag, and the final check throws only for largest tag 0 and a non-zero tag |
| `TagFields.CommonReadsBack` | src/comm/atl_tag.hpp:61-71 | in the common layout a raw tag is 8 bits of operation, 16 of schedule, 16 of communicator and 24 of rank, each read back at its place, negative ranks included |
| `TagFields.CxiReadsBack` | src/comm/atl_tag.hpp:90-100 | in the CXI layout 4, 12, 12 and 20 bits |
| `TagFields.MpiReadsBack` | src/comm/atl_tag.hpp:115-125 | in the MPI layout 4, 12, 8 and 8 bits |
| `TagFields.FittingTagIsRaw` | src/comm/atl_tag.cpp:50-92 | a raw tag that fits is not cut |
| `TagFields.RanksSeparatedIff` | src/comm/atl_tag.cpp:50-92 | for every layout and provider with tags: two ranks in one operation get different tags if and only if a kept bit tells them apart, or any bit does and one of the tags fits with bits past the mask |
| `TagFields.RanksSeparatedByMaskIff` | src/comm/atl_tag.cpp:50-92 | with a largest tag 2^k-1: if and only if a kept bit does |
| `TagFields.WindowSeparates` | src/comm/atl_tag.cpp:50-92 | with largest tag 2^41, ranks 0 and 2 keep no bit apart and still get different tags |
| `TagFields.TagsEqualIff` | src/comm/atl_tag.cpp:50-92 | where tags cover the whole layout, two tags are equal if and only if all four ids agree in the layout's bits |
| `AtlTag.SchedIdKept` | src/comm/atl_tag.cpp:50-92 | the schedule id can be read back from the truncated tag |
| `AtlTag.CommIdKept` | src/comm/atl_tag.cpp:50-92 | so can the communicator id, even when truncation cuts the rank |
| `AtlTag.CommsSeparatedIff` | src/comm/atl_tag.cpp:50-92 | for every layout and every provider: two communicators never share a tag, for any ranks, schedules and operations, if and only if there are tags and some bit the mask keeps tells their fields apart |
| `AtlTag.CommIdsSeparatedIff` | src/comm/atl_tag.cpp:50-92 | where tags reach past the communicator field: if and only if the ids differ in the layout's bits |
| `AtlTag.SchedsSeparatedIff` | src/comm/atl_tag.cpp:50-92 | the same for two schedules over any ranks and communicators, for every layout and provider |
| `AtlTag.SchedIdsSeparatedIff` | src/comm/atl_tag.cpp:50-92 | where tags reach past the schedule field: if and only if the ids differ in the layout's bits |
| `AtlTag.MpiCommIdsAlias` | src/comm/atl_tag.hpp:115-125 | communicators 0 and 256 produce equal tags in the MPI layout |
| `AtlTag.MpiShortTagsAlias` | src/atl/atl_base_comm.cpp:161-165 | with largest tag 0xFFFF, which the MPI check accepts, communicators 0 and 1 share a tag |
| `SchedId.SchedIdSource.constructor` | src/comm/comm.cpp:139-140 | each counter is seeded at the start of the other space's half |
| `SchedId.SchedIdSource.GetSchedId` | src/comm/comm.cpp:551-581 | returns the counter of the space asked for and steps, wraps or resets exactly that one |
| `SchedId.ExternalClosedForm` | src/comm/comm.cpp:551-581 | over every run the external counter is a closed form of the number of stepping calls, with the reset after exactly max of them |
| `SchedId.InternalClosedForm` | src/comm/comm.cpp:551-581 | over every run the internal counter too; it is reset at once by a first point-to-point call, else after exactly 65536 steps |
| `SchedId.ExternalIdRange` | src/comm/comm.cpp:551-581 | every external id of every run is below max_sched_count, and in the upper half after the reset |
| `SchedId.InternalIdRange` | src/comm/comm.cpp:551-581 | every internal id is in the lower half after the reset and is the climbing 16-bit number before |
| `SchedId.ExternalIdsRepeatIff` | src/comm/comm.cpp:551-581 | two external ids of a run are equal if and only if the first comes at or after the middle and whole laps of the upper half lie between them |
| `SchedId.InternalIdsRepeatIff` | src/comm/comm.cpp:551-581 | two internal ids of a run are equal if and only if the first comes in the lower half and whole laps of it lie between them |
| `SchedId.SpacesMeetIff` | src/comm/comm.cpp:551-581 | exactly when an internal and an external call of one run get the same id |
| `SchedId.SpacesApart` | src/comm/comm.cpp:551-581 | the two spaces are the two halves once the internal counter is in the lower one and the external past the middle |
| `SchedId.SpacesMeetEarly` | src/comm/comm.cpp:139-140 | one internal and max/2+1 external calls give both spaces the id max/2 |
| `TagSafety.LiveCommunicatorsNeverShareATag` | src/comm/atl_tag.cpp:50-92 | end to end: two live communicators of one process have no tag in common, in every run, in the common and CXI layouts with enough tag bits |
| `TagSafety.LiveCommunicatorsSeparatedIff` | src/comm/atl_tag.cpp:50-92 | for every layout and provider: they have none in common if and only if some kept bit tells their ids apart |
| `TagSafety.LimitValues` | src/comm/atl_tag.hpp:61-125 | enough tag bits means 2^40-1, 2^28-1 and 2^24-1 for communicator ids, 2^24-1 and 2^16-1 for schedule ids |
| `TagSafety.DifferentIdsNeverMeet` | src/comm/atl_tag.cpp:50-92 | any two different communicator ids below 1024 are separated |
| `TagSafety.DifferentSchedulesNeverMeet` | src/comm/atl_tag.cpp:50-92 | any two different schedule ids below max_sched_count are separated, in all three layouts |
| `TagSafety.SpacesNeverMeet` | src/comm/comm.cpp:551-581 | once the counters are in their halves no internal schedule of a run shares a tag with an external one |
| `TagSafety.StandInIdNeverMeets` | src/atl/ofi/atl_ofi_comm.cpp:58-60 | the stand-in id 1024 used during creation never meets an allocated id |
| `TagSafety.ClearOfPt2ptIff` | src/comm/atl_tag.hpp:33-49 | a schedule's tags avoid all point-to-point and acknowledgement tags if and only if its kept bits are not a reserved id |
| `TagSafety.ReservedNumbers` | src/comm/atl_tag.hpp:40-46 | the reserved ids are the top four numbers of the schedule field, all different |
| `TagSafety.ReservedNeverMeet` | src/comm/atl_tag.hpp:40-46 | messages and acknowledgements of different kinds never share a tag |
| `TagSafety.ExternalSchedulesClearOfPt2pt` | src/comm/comm.cpp:551-581 | in every run no external schedule tag is a point-to-point or acknowledgement tag of any rank or communicator |
| `TagSafety.InternalSchedulesClearIff` | src/comm/comm.cpp:551-581 | an internal schedule is clear of them if and only if its counter was reset before or the number it climbed to is not reserved |
| `TagSafety.InternalSchedulesReachPt2pt` | src/comm/comm.cpp:139-140 | a plain run of internal calls reaches the point-to-point id itself |
| `ThreadBarrier.ArriveInStep` | src/MT/shared_resource.hpp:157-157 | an arrival keeps every thread within one arrival of the openings |
| `ThreadBarrier.AllArrived` | src/MT/shared_resource.hpp:157-157 | once the barrier has opened n times every thread has arrived n times |
| `MtInit.RunInv` | src/comm/mt_comm.cpp:171-198 | mutex, barrier and table stay consistent in every schedule of N threads |
| `MtInit.BarrierInitialisedOnce` | src/MT/shared_resource.hpp:141-158 | the barrier is initialised at most once, and always before any thread waits on it |
| `MtInit.NobodyLeavesEarly` | src/comm/mt_comm.cpp:171-198 | a rank past its k-th wait has seen every rank arrive at it |
| `MtInit.OnlyRankZeroGrowsTheTable` | src/comm/mt_comm.cpp:183-198 | the table changes only by steps of rank 0, while every rank stands between the second and the third wait |
| `MtInit.TableCompleteAfterInit` | src/comm/mt_comm.cpp:183-198 | every rank past the third wait sees exactly N rows of N entries, each with no buffer, in the discovery phase, done counters 0 and checking counters 1; the table is just long enough, other groups untouched |
| `MtInit.StepsGoForward` | src/comm/mt_comm.cpp:171-198 | every step takes its thread further |
| `MtInit.NoDeadlock` | src/comm/mt_comm.cpp:171-198 | in every schedule, while some thread is not initialised some thread can go on |
| `IpcExchange.EachPeerVisitedOnce` | src/MT/shared_resource.hpp:197-199 | the (rank+i)%size loop meets each other peer exactly once, at a turn that inverts it |
| `IpcExchange.GetIpcPtrs` | src/MT/shared_resource.hpp:183-213 | the loop fills every slot with what the table holds for that peer, and its assertion fires exactly when a peer published nothing |
| `IpcExchange.RunInv` | src/MT/shared_resource.hpp:160-213 | every interleaving of any number of rounds keeps the published table, the barrier and the half-filled arrays consistent |
| `IpcExchange.ReadersShareARound` | src/coll/algorithms/alltoall/sycl/alltoall_large_sycl_impl.hpp:738-766 | while one thread reads, every thread is in the same round and has published: the wait after the reads keeps fast threads from overwriting |
| `IpcExchange.ExchangeComplete` | src/MT/shared_resource.hpp:160-213 | in every round each rank that has read holds exactly what every peer published in that round, whatever the table held before; the null assertion never fires |
| `IpcExchange.StepsGoForward` | src/MT/shared_resource.hpp:160-213 | every step takes its thread further, through the peers and the rounds there are |
| `IpcExchange.NoDeadlock` | src/MT/shared_resource.hpp:160-213 | in every interleaving, while some thread is not through its rounds some thread can go on |
| `IpcExchange.ViewsNameTheMembersIff` | src/MT/shared_resource.hpp:177-204 | on any node size the node ranks a rank computes for its even and pair peers are the members of those communicators if and only if it is on a full card or on the first |
| `IpcExchange.ViewsStayOnTheNode` | src/MT/shared_resource.hpp:177-204 | they are always ranks of the node |
| `IpcExchange.PartCardMisnames` | src/MT/shared_resource.hpp:177-204 | with five ranks and two a card, rank 4 looks up node rank 1 for its even peer 2 |
| `IpcExchange.NodeExchange` | src/MT/shared_resource.hpp:160-213 | end to end over the node communicator: slot p holds the pointer of node rank p |
| `IpcExchange.EvenExchange` | src/MT/shared_resource.hpp:160-213 | end to end over even communicators, any node size and round: slot e holds the pointer of the e-th rank of the caller's even communicator, for callers on a full or first card |
| `IpcExchange.PairExchange` | src/MT/shared_resource.hpp:160-213 | the same over pair communicators |
| `SubComm.CreateSubcommExt` | src/comm/mt_comm.cpp:105-140 | grouping, sorting and searching give the size of the colour class and the caller's position in it; the lookup never fails |
| `SubComm.FindRank` | src/comm/mt_comm.cpp:121-134 | the linear search finds the caller at its class number |
| `SubComm.SortIsStable` | src/comm/mt_comm.cpp:113-119 | the modelled sort keeps the order of equal keys |
| `SubComm.SortIsSorted` | src/comm/mt_comm.cpp:113-119 | and leaves keys in order |
| `SubComm.ClassNumberedInRankOrder` | src/comm/mt_comm.cpp:105-140 | the locally computed ranks number each class 0..k-1 one to one and in rank order |
| `NodeRank.SubRanks` | src/comm/mt_comm.cpp:94-103 | the even rank is the card, the pair rank the slot on it, the pair size the ranks on that card |
| `NodeRank.NodeRankRoundTripIff` | src/MT/shared_resource.hpp:177-180 | the node rank is the rank again if and only if its card is full or the first |
| `NodeRank.NodeRankRoundTrip` | src/MT/shared_resource.hpp:177-204 | with the ranks per card dividing the node size every rank comes back |
| `OpIdHandOff.RunInv` | src/MT/shared_resource.hpp:215-238 | entry, publications and receipts stay consistent in every interleaving |
| `OpIdHandOff.ReceivedInOrder` | src/MT/shared_resource.hpp:215-238 | received ids were published, each at most once and in order; they increase until the 32-bit counter wraps |
| `OpIdHandOff.InStepIffAlternating` | src/MT/shared_resource.hpp:215-238 | the k-th receive gets the k-th publication for as long as a receive lies between any two publications, and the counts fall apart exactly from the first two without one |
| `OpIdHandOff.SenderReturnsLatest` | src/MT/shared_resource.hpp:218-227 | a sender returns the latest publication's id, its own if and only if none followed |
| `OpIdHandOff.OvertakenSender` | src/MT/shared_resource.hpp:218-227 | two senders after which the first returns the second one's id |
| `ScaleoutStaging.AddCopyEntries` | src/coll/coll_util.cpp:269-307 | the loop makes an entry for a buffer if and only if its count is not zero and it is not the own rank's with the skip flag set, in rank order, each with its prefix-sum offset and length; a wrong buffer count throws |
| `ScaleoutStaging.RangesTile` | src/coll/coll_util.cpp:269-307 | every byte below the sum lies in exactly one buffer's range |
| `ScaleoutStaging.PackPlacesBuffers` | src/coll/coll_util.cpp:269-307 | after device-to-host copies in any order every buffer stands at its offset |
| `ScaleoutStaging.PackKeepsTheRest` | src/coll/coll_util.cpp:269-307 | no byte past the sum changes |
| `ScaleoutStaging.UnpackDeliversRanges` | src/coll/coll_util.cpp:616-627 | after host-to-device copies in any order every buffer holds its own range and keeps its tail; a skipped one stays |
| `ScaleoutStaging.UnpackUndoesPack` | src/coll/coll_util.cpp:616-627 | unpacking with the same counts gives the packed bytes back, zero counts and any orders included |
| `ScaleoutStaging.PackingPlacesEveryBuffer` | src/coll/coll_util.cpp:414-441 | the method's device-to-host entries, run in any order, place every buffer, the own one included |
| `ScaleoutStaging.StagingRoundTrip` | src/coll/coll_util.cpp:616-627 | the method's entries one way and then the other give every buffer its bytes back, but for the own one when the flag leaves it out, which stays as it was |
| `ScaleoutStaging.FillScaleoutParam` | src/coll/coll_util.cpp:332-412 | sizes and offsets per collective; for allgatherv the send offset is the own range, for reduce-scatter the receive offset; an empty reduce-scatter throws |
| `ScaleoutStaging.OwnSlot` | src/coll/coll_util.cpp:380-412 | the own range lies in the host buffer and meets no other rank's |
| `ScaleoutStaging.AlltoallPackFitsIff` | src/coll/coll_util.cpp:361-369 | the source's assumption about alltoall counts, made exact: packing stays inside its buffer if and only if the send counts add up to no more than the receive counts |
| `InPlace.IsAllgathervInplace` | src/coll/coll_util.cpp:652-728 | throws for mismatched counts, and else if and only if the check is on and a non-null send buffer that is not the rank's own slot is a byte of some slot; otherwise in place means null or the own slot (or the given offset), aliasing a byte of some slot |
| `InPlace.SlotsTile` | src/coll/coll_util.cpp:676-690 | the bytes of the receive buffer are exactly those of the slots, and no two slots share one |
| `InPlace.SlotsInRankOrder` | src/coll/coll_util.cpp:676-690 | slot 0 starts the buffer and each slot is followed by the next rank's |
| `InPlace.InPlaceOverlaps` | src/coll/coll_util.cpp:685-695 | a non-empty in-place buffer is always reported as overlapping as well |
| `InPlace.ReduceScatterVerdict` | src/coll/coll_util.cpp:730-784 | the closed form throws if and only if the check is on and the receive buffer, not the rank's slot of the send buffer, is a byte of some slot; otherwise in place is that slot, aliasing any slot |
| `InPlace.ReduceScatterIsAllgathervSwapped` | src/coll/coll_util.cpp:730-784 | the closed form equals the loop test with equal counts and swapped buffers, verdict and aliasing, if and only if the receive buffer is not null or is its slot |
| `InPlace.CreateAllgathervParam` | src/coll/coll_param.cpp:559-584 | rejected if and only if the send count is not the rank's own receive count; else complete and validated |
| `InPlace.CreateReduceScatterParam` | src/coll/coll_param.cpp:750-771 | rejected if and only if the reduction is not built in |
| `InPlace.IsInplace` | src/coll/coll_param.cpp:250-297 | on a factory's parameters: no count mismatch, exactly when it throws, and in place exactly when the buffer starts at the rank's own place |
| `HostBufs.ScaleoutHostBufs.GetScaleoutHostBuf` | src/comm/comm.cpp:584-622 | one get is the specification step: allocation, both exceptions, pointer and index |
| `HostBufs.ScaleoutHostBufs.PutScaleoutHostBuf` | src/comm/comm.cpp:624-628 | one return is the specification step, a refusal changing nothing |
| `HostBufs.ScaleoutHostBufs.GetScaleoutHostBufSize` | src/comm/comm.cpp:630-635 | the size is fixed from the environment the first time it is not zero |
| `HostBufs.RingRefinesStack` | src/comm/comm.cpp:584-628 | every call of every run with at most three outstanding does what a stack of distinct buffers allows, a get throwing exactly when its slot is empty and no memory can be had |
| `HostBufs.DepthKeepsItsBuffer` | src/comm/comm.cpp:584-628 | a get at a depth in use before in the run cannot throw and hands out the very buffer it did then |
| `HostBufs.OutstandingDiffer` | src/comm/comm.cpp:584-628 | outstanding buffers are pairwise different and not null |
| `HostBufs.GetRefinesIff` | src/comm/comm.cpp:584-622 | a get behaves as a stack if and only if fewer than three are outstanding; with three it hands out the oldest again |
| `HostBufs.PutRefinesIff` | src/comm/comm.cpp:624-628 | a return behaves as a stack if and only if something is outstanding or the pointer is not the slot's; while anything is outstanding only the newest is accepted |
| `HostBufs.SlotsAreStable` | src/comm/comm.cpp:584-622 | over any calls a slot that holds a pointer keeps it: it is allocated at most once |
| `HostBufs.SizeAfterCall` | src/comm/comm.cpp:630-635 | only a get on an empty slot with no size yet takes the size, from the environment |
| `HostBufs.SizeIsStable` | src/comm/comm.cpp:630-635 | over any calls a size once set stays |
| `HostBufs.PutUndoesGet` | src/comm/comm.cpp:584-628 | returning the buffer just got succeeds and the next get yields the same pointer and state |
| `HostBufs.NullReturnAccepted` | src/comm/comm.cpp:624-628 | on a fresh ring returning null is accepted and moves the index |
| `RtPattern.RtPatterns.constructor` | src/comm/comm.cpp:179-181 | all 33 counters start at the seed |
| `RtPattern.RtPatterns.GetRtPattern` | src/comm/comm.hpp:900-916 | the pattern of the specification, or the exception for a peer past 31 |
| `RtPattern.RtPatterns.UpdateRtPattern` | src/comm/comm.hpp:918-929 | stores ten bits in exactly the counter of the peer, or of collectives |
| `RtPattern.PatternsEqualIff` | src/comm/comm.hpp:900-916 | for any ranks two patterns are equal if and only if id, flag-and-source and counter bits agree |
| `RtPattern.PatternReads` | src/comm/comm.hpp:897-916 | what stands where in a pattern: 16 bits of id, the collective flag, five bits of source, ten of counter |
| `RtPattern.UpdateTakesEffect` | src/comm/comm.hpp:918-929 | after an update the next pattern on that counter has the ten low bits stored and is otherwise as before; other patterns are the same; an update that throws changes nothing |
| `RtPattern.PatternsSeparate` | src/comm/comm.hpp:897-916 | with at most 32 ranks and any ids, two patterns are equal if and only if the ids agree in 16 bits, kind and source agree and the counters agree in ten bits |
| `RtPattern.CommunicatorsApartIff` | src/comm/comm.hpp:915-915 | two communicators never share a pattern if and only if their ids differ in the low 16 bits |
| `RtPattern.UnsetIdsMeet` | src/comm/comm.hpp:947-947 | two communicators that kept the invalid id start with the same collective pattern |
| `RtPattern.SendLooksCollectiveIff` | src/comm/comm.hpp:908-913 | a send looks like the collective if and only if the sender's rank is 32 modulo 64 |
| `RtPattern.SendMatchesReceive` | src/comm/comm.hpp:897-929 | over runs of two ranks whose counters for each other agree and whose pairwise calls mirror, other calls interleaved at will, the i-th patterns are equal on both ends |
| `RtPattern.SeededSendMatchesReceive` | src/comm/comm.cpp:179-181 | seeded counters agree, so mirrored calls suffice |
| `RtPattern.FirstPairEqualIff` | src/comm/comm.hpp:900-916 | the first send and receive match if and only if the counters agree |
| `DeviceIndex.FromString` | src/ccl_cpp_utils.cpp:51-118 | ends on every string and gives the meaning of its fields, or the first exception |
| `DeviceIndex.ParseFields` | src/ccl_cpp_utils.cpp:69-115 | the loop over the fields, cursor strictly advancing |
| `DeviceIndex.FieldsAreTheSplit` | src/ccl_cpp_utils.cpp:69-115 | the fields hold no colon and joined by colons give the text back, but for one trailing colon |
| `DeviceIndex.ParsedPrinted` | src/ccl_cpp_utils.cpp:34-118 | what every printed index parses to, unused sub-device included |
| `DeviceIndex.RoundTripIff` | src/ccl_cpp_utils.cpp:34-118 | parsing inverts printing if and only if the sub-device is in use |
| `DeviceIndex.PrintedDiffer` | src/ccl_cpp_utils.cpp:34-49 | no two indices print alike |
| `DeviceText.FieldsOfJoined` | src/ccl_cpp_utils.cpp:69-115 | reading the fields of any joined text gives the fields |
| `DeviceText.ParsedJoined` | src/ccl_cpp_utils.cpp:51-118 | text before the first bracket is ignored and the fields behind it decide |
| `DeviceText.NoFields` | src/ccl_cpp_utils.cpp:53-63 | no bracket, or nothing but one, is an exception |
| `DeviceText.AtollOfNumber` | src/ccl_cpp_utils.cpp:75-101 | numbers of any size and sign are read up to the first other character and saturate |
| `DeviceText.OneNumber` | src/ccl_cpp_utils.cpp:66-115 | `[a]` leaves device and sub-device unused; a negative driver is an exception |
| `DeviceText.TwoNumbers` | src/ccl_cpp_utils.cpp:66-115 | `[a:b]` leaves the sub-device unused; a negative device is an exception |
| `DeviceText.ThreeNumbers` | src/ccl_cpp_utils.cpp:66-115 | `[a:b:c]`: a negative sub-device is unused |
| `DeviceText.FourFields` | src/ccl_cpp_utils.cpp:102-107 | four fields or more are refused, after a negative driver or device |

## Left out

- API wrappers, attribute classes and macro-generated instantiations: they only forward.
- Collective algorithms, schedule cache, fusion, executor, topology manager and the transports themselves.
- `ccl_coll_create` and the dispatch switches: they depend on selectors, device events and environment settings.
- SYCL, Level Zero, NCCL, KVS and PMI code, device pointer checks, and the choice of an IPC exchange mode.
- `comm_count` and the finalisation of the transport; the destructor is modelled up to the release of its id.
- The rotation of temporary GPU buffers, GPU barrier counters and pipeline chunk pointers.
- Progress of communicator creation and of the operation-id hand-off, which depends on the order of the callers and on the transport. Bring-up and pointer exchange are free of deadlock (`NoDeadlock`); fairness of the scheduler is not modelled.
- Exceptions from the transport inside the interleaved protocol; `CreateCommId` has them for one call. A destructor that meets an id outside the table throws in the source and does nothing in the protocol.
- The rank and size check in `initExt`: thread t is rank t. Its wait after the address maps are built is also left out, and no other group resizes the table at the same time.
- Several reads of one exchange round by one thread: each is a round of the model, since reading changes nothing shared.
- Pointer exchanges without the wait after the reads (the point-to-point ones).
- In-place detection for allgather: the factory stores one receive count while the shared helper reads one per rank.
- `is_inplace` for the other collectives and for the scale-out buffers of device memory: a comparison of two pointers.
- Releasing the ring's memory in its destructor, and registering it with the device.
- Overflow of 64-bit sizes and addresses.
- CommIdProtocol.RunInv: asks that every constructor's id is handed over, because without that the property is false; StepInvIff shows that no weaker condition on the steps will do. LiveIdsDiffer and NoLeakNoDoubleRelease rest on it.
- TagSafety.LiveCommunicatorsNeverShareATag: covers the common and CXI layouts with enough tag bits, because elsewhere it is false; LiveCommunicatorsSeparatedIff gives the exact condition for every layout and provider.
- SubComm.SortIsStable: is about the modelled sort; the C++ standard does not promise it of `std::sort`.
