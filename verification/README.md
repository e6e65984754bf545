# TeaSpeak shared library: verified models

This project models the stateful core of the TeaSpeak shared library, version 1.4.10, in Dafny 4.11 and
proves what it is meant to keep. `dafny verify dfyconfig.toml` checks everything.

The library is C++ that works in place, and so do the models: classes with mutable fields, arrays, loops and
linked nodes on the heap, each proved against functions on plain values. The theorems are about those functions,
and about state machines where threads interleave.

| files | part of the library |
|---|---|
| LinkSpec, LinkedHelper, CircleRepair, ChainBuilder, BuildChain | repair of a channel chain from arbitrary (id, previous id) records, `linked::build_chain` |
| PermissionData, PermissionSpec, PermissionDatabase, PermissionReload, PermissionEffect, ChannelFlag, ChannelZero, BlockStore, PermissionManager, PermissionRace | `v2::PermissionManager`: block store, channel overrides, delta flush to the database and loading back, concurrent setters and flushers |
| NodeList, EventExecutor, EventSound, EventLoss, EventQueue | the event executor: list of nodes, back pointers, wait set and resizable pool; what `cancel` does to them; the list on the heap |
| LicenseSpec, LicenseBytes, License | reader and writer of license chains |
| PropertyIndex, PropertyCache | the validated property list with its lookups, and the cached property value |
| ChannelPath, TreeView, ChannelTree | channel paths, the tree that lists the channels, channel creation and the default channel |
| Options, Sequences | shared definitions |

`PermissionSpec` also holds the master version of `set_channel_permission`, the one function of
`TeaSpeakLibrary-master` that is modelled.

## Where the code does not keep what it promises

Each of these is a theorem: the code is modelled as it is, and the exact condition under which it keeps the
promise is proved.

- The inner circle loop of `build_chain` never advances `head` (linked_helper.cpp:93-101). Every circle therefore
  ends in failure. With the missing step added the repair succeeds on every non-empty input.
- `EventExecutor::cancel` makes the successor of the cancelled node the head (EventLoop.cpp:97). Everything queued
  in front of the node is torn off; the entries concerned stay marked as queued. A run ends with a sound queue exactly
  if every cancel of a queued entry hit the head. A torn-off entry does not run unless another torn-off entry whose
  node leads to its own is cancelled: that puts the nodes between back at the head, in place of the queue, and wakes
  nobody. Nobody sleeps beside a queued event exactly if no such cancel meets an empty queue and sleeping executors.
  If the torn-off entry was directly in front of the cancelled one, cancelling it uses the deleted node.
- A resize to 0 directly after `initialize` is taken for no change, since `initialize` leaves `target_threads` at 0.
- In 1.4.10 a channel permission that is unset and set again without a flush in between has no `channel_specific`
  flag, because registration tests for absence only; a run keeps the flag exact exactly if no call sets something in
  a container that is listed while its permission is not flagged. The master version keeps the flag exact, but drops
  a call that only sets a grant on an absent or unset override.
- `cleanup` between a removal and its flush loses the removal: the row stays in the database. The next flush is right
  exactly if the cleanup freed no slot with a row.
- A value or a grant set to -2 is written like one that is not set, and so is not set after the next start. The table
  restores the permissions of a manager exactly if nothing is set to -2.
- An override for channel 0 shares its row with the permission itself, and no call refuses it. From any coherent
  state, such a call and a flush leave the permissions right in the database exactly if the call set nothing or the
  permission is set, since the INSERT of the override then fails on the key (SqlDataManager.cpp:366); permissions and
  overrides alike are right exactly if the call set nothing, the permission is not set, or both want the same row. One
  row gets two updates exactly if the call set something and the permission had an update of its own pending.
- A license issuer that holds a NUL exports to bytes that parse differently, or not at all.
- `describe(type, index)` adds in 64 bits without a check; for large indices the sum wraps around into the list.
- A cached property value is right exactly if its converter parses back what it prints. A converter that prints six
  digits behind the point, as those for floating point numbers do, is not of that kind.
- In a channel path an escaped slash removes the name in front of it, and empty names and names that end with a
  backslash cannot be reached, except as the last one.
- The channel tree refuses a new channel whose predecessor is its parent, or is neither a sibling behind the parent
  nor a child of the parent or of such a sibling (TreeView.cpp:191, 207). `createChannel` then reports a failure, but
  the channel stays listed at the root (TreeView.cpp:176-184). Sibling names stay unique exactly if the place is
  accepted or no root channel has the name.
- The tree also accepts predecessors that are not children of the parent (TreeView.cpp:153-164, 207). The new channel
  is then listed outside the children of its parent. Every channel stays listed below its parent exactly if the
  predecessor is missing or a child of the parent, or the place is refused. A sibling behind the parent is such a
  predecessor.

## Model

| member | source | states |
|---|---|---|
| BuildChain.BuildChain | TeaSpeakLibrary-1.4.10/src/linked_helper.cpp:9-133 | as written: null is returned exactly on empty input or when the predecessor links that survive the first pass hold a circle; otherwise the entries form one doubly linked list, each entry once, in the one order determined by the input, head `previous_id` 0, every other `previous_id` the id in front, `modified` set exactly on touched entries, and the log stays empty exactly if nothing was touched |
| BuildChain.BuildChainAdvancing | TeaSpeakLibrary-1.4.10/src/linked_helper.cpp:9-133 | the same with `head = head->next` added to the circle loop: null is returned only on empty input |
| BuildChain.ModifiedExactlyIfChanged | TeaSpeakLibrary-1.4.10/src/linked_helper.cpp:21-49 | with distinct non-zero ids, an entry that came in unmodified is modified after the repair exactly if its `previous_id` differs from the input |
| BuildChain.OutputWrittenBack | TeaSpeakLibrary-1.4.10/src/linked_helper.cpp:110-131 | the ids read off the repaired entries are the chained ids of the arrangement |
| BuildChain.SecondRepairKeeps | TeaSpeakLibrary-1.4.10/src/linked_helper.cpp:9-133 | repairing the output ids again, handed over in any order, is never the failing case, returns the same order and changes and marks nothing |
| BuildChain.ChainRepairKeeps | TeaSpeakLibrary-1.4.10/src/linked_helper.cpp:9-133 | records that form a chain with distinct non-zero ids, in any listing order, are repaired to that chain: the failing case is not taken, nothing is changed or marked, and its first entry is returned |
| BuildChain.ShuffledChain | TeaSpeakLibrary-1.4.10/src/linked_helper.cpp:110-131 | the ids a repair leaves form one chain in every order in which the entries can be listed |
| BuildChain.LinkAndSearch | TeaSpeakLibrary-1.4.10/src/linked_helper.cpp:18-78 | the first pass keeps exactly the surviving links; unused nodes remain exactly if those links hold a circle; the first pass logs exactly if it drops a link |
| BuildChain.CutAndJoinAsWritten | TeaSpeakLibrary-1.4.10/src/linked_helper.cpp:80-131 | with unused nodes the second half always fails; without, it repairs |
| BuildChain.CutAndJoinAdvancing | TeaSpeakLibrary-1.4.10/src/linked_helper.cpp:80-131 | with the advancing circle loop the second half fails only without entries |
| BuildChain.JoinHeads | TeaSpeakLibrary-1.4.10/src/linked_helper.cpp:104-131 | the missing-heads exit is taken exactly without entries; otherwise the joined list is the arrangement |
| BuildChain.SilentIffUntouched | TeaSpeakLibrary-1.4.10/src/linked_helper.cpp:20-124 | nothing is logged exactly if no entry is touched |
| BuildChain.AllCut | TeaSpeakLibrary-1.4.10/src/linked_helper.cpp:80-102 | after the circle search every node hangs on an open one, and exactly the circle nodes that come first in the input have lost their link |
| LinkSpec.RootedXorCircle | TeaSpeakLibrary-1.4.10/src/linked_helper.cpp:52-60 | on a finite injective predecessor map every node either hangs on an open node or lies on a circle: what no head reaches is exactly the circles |
| LinkSpec.KeptLinksAreLinks | TeaSpeakLibrary-1.4.10/src/linked_helper.cpp:29-46 | surviving links are injective: no record keeps two successors |
| LinkSpec.ArrangementUnique | TeaSpeakLibrary-1.4.10/src/linked_helper.cpp:110-129 | the order of the result is determined by the surviving links |
| LinkSpec.ModifiedIffChanged | TeaSpeakLibrary-1.4.10/src/linked_helper.cpp:21-49 | with distinct non-zero ids a touched node changes its `previous_id` and an untouched one keeps it |
| LinkSpec.ChainIsFixed | TeaSpeakLibrary-1.4.10/src/linked_helper.cpp:20-49 | records that form one chain, listed in any order, have no circle, are arranged as that chain, and none is touched |
| LinkSpec.RepairIdempotent | TeaSpeakLibrary-1.4.10/src/linked_helper.cpp:9-133 | repairing the records of a repaired chain is the identity |
| LinkedHelper.FirstLinking | TeaSpeakLibrary-1.4.10/src/linked_helper.cpp:18-50 | every predecessor keeps as successor the first entry that names it, self-references excluded; the others become heads in input order |
| LinkedHelper.AllLinked | TeaSpeakLibrary-1.4.10/src/linked_helper.cpp:29-46 | after the last round exactly the surviving links are set |
| LinkedHelper.MarkUsed | TeaSpeakLibrary-1.4.10/src/linked_helper.cpp:58-73 | the walk over all heads marks exactly the nodes that hang on an open one; the "already used" exit is unreachable |
| CircleRepair.CollectUnused | TeaSpeakLibrary-1.4.10/src/linked_helper.cpp:75-78 | the unused nodes are the unmarked ones in input order |
| CircleRepair.FirstUnusedIsCutPoint | TeaSpeakLibrary-1.4.10/src/linked_helper.cpp:81-90 | the node taken from the front of the unused list is the first of its circle in the input |
| CircleRepair.RecheckSuccessor | TeaSpeakLibrary-1.4.10/src/linked_helper.cpp:93-101 | the inner loop as written succeeds only on a node without successor |
| CircleRepair.CutCirclesAsWritten | TeaSpeakLibrary-1.4.10/src/linked_helper.cpp:80-102 | the circle loop as written fails exactly if there is an unused node |
| CircleRepair.CutCirclesAdvancing | TeaSpeakLibrary-1.4.10/src/linked_helper.cpp:80-102 | the advancing circle loop ends, succeeds, and opens every circle at the node that comes first in the input, clearing and marking exactly those nodes |
| CircleRepair.NeverIsolated | TeaSpeakLibrary-1.4.10/src/linked_helper.cpp:84-93 | cutting a circle never leaves a node without a successor, so the loop as written has no lucky case |
| ChainBuilder.WalkToTail | TeaSpeakLibrary-1.4.10/src/linked_helper.cpp:114-114 | the walk ends at the last node of the path |
| ChainBuilder.Concatenate | TeaSpeakLibrary-1.4.10/src/linked_helper.cpp:110-129 | all chains are joined behind the first in the order of the heads; previously open nodes get link, `previous_id` and mark, everything else stays |
| ChainBuilder.AllJoined | TeaSpeakLibrary-1.4.10/src/linked_helper.cpp:116-129 | the joined path holds every node once |
| PermissionData.FlushOne | TeaSpeakLibrary-1.4.10/src/PermissionManager.cpp:1452-1498 | flushing one container makes its row exact, leaves the container set or unset as it was, clears its marks and touches no other row |
| PermissionDatabase.EveryRunFlushesExactly | TeaSpeakLibrary-1.4.10/src/PermissionManager.cpp:1101-1548 | over every permitted run of loads, sets, channel sets, flushes and cleanups, in both versions, executing the next flush makes the database equal the set permissions of memory |
| PermissionDatabase.RunCoherent | TeaSpeakLibrary-1.4.10/src/PermissionManager.cpp:1101-1548 | between flushes `database_reference` holds exactly for rows present, and every container without pending change agrees with its row |
| PermissionDatabase.FlushMirrors | TeaSpeakLibrary-1.4.10/src/PermissionManager.cpp:1431-1548 | after executing a flush the database holds exactly the set permissions, with their values and flags |
| PermissionDatabase.FlushCoherent | TeaSpeakLibrary-1.4.10/src/PermissionManager.cpp:1431-1548 | a flush leaves nothing pending and the save flag clear |
| PermissionDatabase.UpdatesDistinct | TeaSpeakLibrary-1.4.10/src/PermissionManager.cpp:1431-1545 | no key appears twice in one flush |
| PermissionDatabase.SetSlotCoherent | TeaSpeakLibrary-1.4.10/src/PermissionManager.cpp:1244-1288 | set_permission keeps memory and database coherent |
| PermissionDatabase.SetOverrideCoherent | TeaSpeakLibrary-1.4.10/src/PermissionManager.cpp:1290-1368 | set_channel_permission keeps memory and database coherent for channel ids above 0 |
| PermissionDatabase.SetOverrideMasterCoherent | TeaSpeakLibrary-master/src/PermissionManager.cpp:1246-1320 | the master version of set_channel_permission does so as well |
| PermissionDatabase.LoadSlotCoherent | TeaSpeakLibrary-1.4.10/src/PermissionManager.cpp:1101-1116 | loading a row keeps coherence exactly if the row sets a value or a grant, or the slot has a pending change |
| PermissionDatabase.LoadOverrideCoherent | TeaSpeakLibrary-1.4.10/src/PermissionManager.cpp:1118-1152 | loading an override row that sets a value or a grant keeps coherence |
| PermissionDatabase.CleanupKeepsSet | TeaSpeakLibrary-1.4.10/src/PermissionManager.cpp:1567-1586 | cleanup keeps every slot that is set or channel specific as it is |
| PermissionDatabase.CleanupCoherentIff | TeaSpeakLibrary-1.4.10/src/PermissionManager.cpp:1567-1586 | cleanup is safe exactly if no freed slot still has a row; such a slot is one whose removal was not flushed |
| PermissionDatabase.CleanupMirrorsIff | TeaSpeakLibrary-1.4.10/src/PermissionManager.cpp:1567-1586 | the flush behind a cleanup makes the database equal to memory exactly if no freed slot still has a row |
| PermissionReload.ReloadRestoresIff | Server/Server/server/src/DatabaseHelper.cpp:172-224 | a new manager that loads a mirrored table, in any order of its rows, has the same permissions exactly if no value or grant is set to the marker -2 |
| PermissionReload.EveryRunReloadsIff | Server/Server/server/src/DatabaseHelper.cpp:172-224 | the same over every permitted run, followed by a flush and a restart |
| PermissionReload.LoadTableAt | Server/Server/server/src/DatabaseHelper.cpp:172-224 | every row that is loaded shows at its key, and no other key changes |
| PermissionReload.MarkerIsLost | Server/Server/server/src/DatabaseHelper.cpp:219-223 | a value set to -2 is not set any more behind a flush and a restart |
| PermissionEffect.SetSlotTakes | TeaSpeakLibrary-1.4.10/src/PermissionManager.cpp:1244-1288 | set_permission, field by field: a number that is set is set to the given one, one that is deleted is not set and stores -2, one that is left alone stays; the flags skip and negate likewise; ids out of range change nothing, and neither does any other permission |
| PermissionEffect.SetOverrideTakes | TeaSpeakLibrary-1.4.10/src/PermissionManager.cpp:1290-1368 | set_channel_permission in 1.4.10, field by field, exactly if the override is listed or a number is to be set; otherwise nothing changes; other permissions stay up to their channel flag |
| PermissionEffect.SetOverrideMasterTakes | TeaSpeakLibrary-master/src/PermissionManager.cpp:1246-1320 | the same in master, exactly if the override is set or the call does more than set a grant |
| PermissionEffect.FlushKeepsPermissions | TeaSpeakLibrary-1.4.10/src/PermissionManager.cpp:1431-1548 | a flush changes no permission |
| PermissionEffect.CleanupKeepsPermissions | TeaSpeakLibrary-1.4.10/src/PermissionManager.cpp:1567-1586 | a cleanup changes no permission |
| PermissionEffect.RunWrites | TeaSpeakLibrary-1.4.10/src/PermissionManager.cpp:1101-1586 | 1.4.10: behind every permitted run every permission is what the writes of the run to it, one after the other, make of what it was |
| PermissionEffect.LastWriteSurvivesIff | TeaSpeakLibrary-1.4.10/src/PermissionManager.cpp:1101-1586 | 1.4.10: a run of a new manager, a flush and a restart leave a permission at what the run wrote to it last, exactly if neither number of that is -2 |
| PermissionReload.RestoredAtIff | Server/Server/server/src/DatabaseHelper.cpp:172-224 | for every single permission: the reloaded one is the same exactly if no number was set to -2; otherwise that number is not set |
| PermissionDatabase.ChannelZeroCollides | TeaSpeakLibrary-1.4.10/src/PermissionManager.cpp:1474-1478 | an override for channel 0 and the slot of the same permission update the same row with different values |
| ChannelZero.OneZeroOverride | TeaSpeakLibrary-1.4.10/src/PermissionManager.cpp:1290-1368 | both versions, from any coherent state: after an override for channel 0 the flush mirrors the slots exactly if the call set nothing or the slot is set; it serves every container, the override included, exactly if the call set nothing, the slot is not set, or both want the same row; so both hold exactly if the call set nothing or its row is that of the set slot |
| ChannelZero.OneZeroOverrideRepeats | TeaSpeakLibrary-1.4.10/src/PermissionManager.cpp:1431-1545 | the flush then updates one row twice exactly if the call set something and the slot has an update of its own |
| ChannelZero.FlushMirrorsIff | TeaSpeakLibrary-1.4.10/src/PermissionManager.cpp:1431-1548 | with overrides for channel 0 in any state, a flush mirrors the slots and the other overrides exactly if each of them emits nothing, deletes the row of an unset slot, writes the row of its slot, or inserts where the row exists |
| ChannelZero.FlushMirrorsAllIff | TeaSpeakLibrary-1.4.10/src/PermissionManager.cpp:1431-1548 | the flush serves every container, those for channel 0 included, exactly if every shared row serves both of its owners |
| ChannelZero.FlushAboveIff | TeaSpeakLibrary-1.4.10/src/PermissionManager.cpp:1431-1548 | a flush keeps the coherence of slots and other overrides exactly if every override for channel 0 spares its slot |
| ChannelZero.RunMirrorsIff | TeaSpeakLibrary-1.4.10/src/PermissionManager.cpp:1101-1586 | over every run with overrides for channel 0 in both versions: all flushes mirror the slots and the other overrides exactly if every flush finds all slots spared |
| ChannelZero.RepeatedIff | TeaSpeakLibrary-1.4.10/src/PermissionManager.cpp:1431-1545 | a flush updates a row twice exactly if a slot and its override for channel 0 both emit |
| PermissionDatabase.CleanupLosesRemoval | TeaSpeakLibrary-1.4.10/src/PermissionManager.cpp:1567-1586 | set, flush, unset, cleanup: the removal is never written |
| ChannelFlag.SetOverrideFlag | TeaSpeakLibrary-1.4.10/src/PermissionManager.cpp:1303-1364 | 1.4.10: `channel_specific` implies a set override after every call; it is exact afterwards unless a container is re-set that is still listed while the permission is not flagged |
| ChannelFlag.SetOverrideSound | TeaSpeakLibrary-1.4.10/src/PermissionManager.cpp:1290-1368 | 1.4.10: a flagged permission has a set override, with no exactness assumed before the call |
| ChannelFlag.SetOverrideFlagLost | TeaSpeakLibrary-1.4.10/src/PermissionManager.cpp:1303-1325 | 1.4.10: set, unset, set again without a flush leaves a set override without the flag |
| ChannelFlag.RunExactIff | TeaSpeakLibrary-1.4.10/src/PermissionManager.cpp:1303-1364 | 1.4.10: behind the loads the flag is exact in every state of a run exactly if no call of the run sets something in a container that is listed while its permission is not flagged |
| ChannelFlag.GrantDropped | TeaSpeakLibrary-master/src/PermissionManager.cpp:1260-1262 | master: a call on a new manager that only sets a grant has no effect; in 1.4.10 the grant is set |
| ChannelFlag.SetOverrideMasterFlag | TeaSpeakLibrary-master/src/PermissionManager.cpp:1259-1318 | master: the flag stays exact |
| ChannelFlag.GrantReaches | TeaSpeakLibrary-master/src/PermissionManager.cpp:1260-1262 | master drops a call that only sets the grant of an absent or unset override, and only such a call; 1.4.10 never drops a grant |
| ChannelFlag.LoadOverrideFlag | TeaSpeakLibrary-1.4.10/src/PermissionManager.cpp:1118-1152 | a loaded override leaves the flag exact exactly if its container is new or the permission is flagged already |
| ChannelFlag.OtherOperationsKeepFlag | TeaSpeakLibrary-1.4.10/src/PermissionManager.cpp:1431-1586 | flush, cleanup and slot writes keep either direction of the flag agreement |
| ChannelFlag.RunFlag | TeaSpeakLibrary-1.4.10/src/PermissionManager.cpp:1244-1586 | over every run behind the initial loads the flag is sound in 1.4.10 and exact in master |
| ChannelFlag.LoadsFlag | TeaSpeakLibrary-1.4.10/src/PermissionManager.cpp:1118-1152 | loading a table of distinct rows leaves the flag exact |
| BlockStore.BlockBijection | TeaSpeakLibrary-1.4.10/src/PermissionManager.h:933-939 | `id = 16 * block + index` is a bijection, and every id below the maximum has its block |
| BlockStore.ShiftAndMask | TeaSpeakLibrary-1.4.10/src/PermissionManager.h:933-939 | shift and mask of the source are that division, on 16-bit ids |
| BlockStore.AllocateInvisible | TeaSpeakLibrary-1.4.10/src/PermissionManager.h:960-966 | allocating a missing block changes no permission |
| BlockStore.WriteSlot | TeaSpeakLibrary-1.4.10/src/PermissionManager.h:933-939 | writing one slot changes exactly that permission |
| PermissionManagers.SetPermissionsSpec | TeaSpeakLibrary-1.4.10/src/PermissionManager.cpp:1387-1398 | the list of permissions is increasing and holds exactly the set ones with their containers |
| PermissionManagers.PermissionManager.RefBlock | TeaSpeakLibrary-1.4.10/src/PermissionManager.h:945-952 | a use is taken exactly if the block exists |
| PermissionManagers.PermissionManager.UnrefBlock | TeaSpeakLibrary-1.4.10/src/PermissionManager.h:954-958 | one use is given back |
| PermissionManagers.PermissionManager.RefAllocateBlock | TeaSpeakLibrary-1.4.10/src/PermissionManager.h:960-966 | afterwards the block exists, one use is taken and no permission has changed |
| PermissionManagers.PermissionManager.ReadContainer | TeaSpeakLibrary-1.4.10/src/PermissionManager.cpp:1154-1178 | flags and values of a permission; the empty ones for ids out of range and missing blocks; use counts as found |
| PermissionManagers.PermissionManager.ValueFlagged | TeaSpeakLibrary-1.4.10/src/PermissionManager.cpp:1180-1192 | value and whether it is set, as in the abstract contents |
| PermissionManagers.PermissionManager.GrantedFlagged | TeaSpeakLibrary-1.4.10/src/PermissionManager.cpp:1194-1206 | grant and whether it is set, as in the abstract contents |
| PermissionManagers.PermissionManager.ChannelPermission | TeaSpeakLibrary-1.4.10/src/PermissionManager.cpp:1208-1217 | the first container of permission and channel, or the empty one |
| PermissionManagers.PermissionManager.LoadPermission | TeaSpeakLibrary-1.4.10/src/PermissionManager.cpp:1101-1116 | refines the load of one slot; use counts as found |
| PermissionManagers.PermissionManager.LoadChannelPermission | TeaSpeakLibrary-1.4.10/src/PermissionManager.cpp:1118-1152 | refines the load of one override; use counts as found |
| PermissionManagers.PermissionManager.SetPermission | TeaSpeakLibrary-1.4.10/src/PermissionManager.cpp:1244-1288 | refines the slot write, returns the state before, use counts as found |
| PermissionManagers.PermissionManager.SetChannelPermission | TeaSpeakLibrary-1.4.10/src/PermissionManager.cpp:1290-1368 | refines the override write with registration and withdrawal of the channel flag, returns the state before, use counts as found |
| PermissionManagers.PermissionManager.Permissions | TeaSpeakLibrary-1.4.10/src/PermissionManager.cpp:1370-1409 | the list of set permissions; use counts as found |
| PermissionManagers.PermissionManager.FlushBlocks | TeaSpeakLibrary-1.4.10/src/PermissionManager.cpp:1438-1500 | updates of all slots in increasing id, every slot flushed in place |
| PermissionManagers.PermissionManager.FlushChannels | TeaSpeakLibrary-1.4.10/src/PermissionManager.cpp:1501-1545 | the erasing loop flushes every override once, in order, and keeps exactly those that are set or not pending |
| PermissionManagers.PermissionManager.FlushDbUpdates | TeaSpeakLibrary-1.4.10/src/PermissionManager.cpp:1431-1548 | new contents and updates together are those of the abstract flush |
| PermissionManagers.PermissionManager.CleanUpBlocks | TeaSpeakLibrary-1.4.10/src/PermissionManager.cpp:1567-1586 | frees exactly the blocks without a slot in use, seen as a map: refines the abstract cleanup |
| PermissionRace.NoUpdateLost | TeaSpeakLibrary-1.4.10/src/PermissionManager.cpp:1254-1505 | in every interleaving of setters and flushers a write that no flush has emitted is marked, and covered by the save flag, a setter about to raise it, or a flusher yet to scan it; when all have returned and the save flag is clear, every write has been emitted |
| PermissionRace.StepLosesNothing | TeaSpeakLibrary-1.4.10/src/PermissionManager.cpp:1431-1505 | every single step keeps that cover |
| PermissionRace.WritesCount | TeaSpeakLibrary-1.4.10/src/PermissionManager.cpp:1254-1368 | every write of a run reaches its container, and nothing else does |
| PermissionRace.LoneFlushDrains | TeaSpeakLibrary-1.4.10/src/PermissionManager.cpp:1431-1548 | from quiescence one undisturbed flush leaves every write emitted; without the save flag that is so already |
| EventSound.RunWakes | TeaSpeakLibrary-1.4.10/src/EventLoop.cpp:17-196 | with a cancel that unlinks its node: in every interleaving nobody sleeps through a resize or a shutdown, and a non-empty queue with live executors has one that is awake |
| EventSound.StepWakes | TeaSpeakLibrary-1.4.10/src/EventLoop.cpp:65-196 | from a sound queue every step keeps that |
| EventExecutor.RunWakesIff | TeaSpeakLibrary-1.4.10/src/EventLoop.cpp:17-196 | with cancel in either form that holds in every state of a run exactly if no cancel of the run makes a node the head of an empty queue while all executors sleep: cancel notifies nobody |
| EventExecutor.StepWakesIff | TeaSpeakLibrary-1.4.10/src/EventLoop.cpp:89-108 | the same for every single step, from any state |
| EventExecutor.PoolSettles | TeaSpeakLibrary-1.4.10/src/EventLoop.cpp:17-30 | after a resize the pool has max(target, size - looks) executors: each look takes one off an oversize pool and never one more |
| EventExecutor.RunSized | TeaSpeakLibrary-1.4.10/src/EventLoop.cpp:168-188 | without shutdown the pool never falls below the target, an oversize pool has `should_adjust` set, and the own handle is always found |
| EventExecutor.ResizeTargets | TeaSpeakLibrary-1.4.10/src/EventLoop.cpp:17-30 | threads(n) makes n the target |
| EventExecutor.ResizeSizes | TeaSpeakLibrary-1.4.10/src/EventLoop.cpp:17-30 | an effective threads(n) from any state without shutdown leaves target n and max(n, size) executors, and the pool in that regime |
| EventExecutor.ResizeSettles | TeaSpeakLibrary-1.4.10/src/EventLoop.cpp:17-30 | behind threads(n) and without further resizes the pool has exactly n executors exactly if there have been at least size - n looks |
| EventExecutor.LookUnmarks | TeaSpeakLibrary-1.4.10/src/EventLoop.cpp:168-185 | a look leaves the mark exactly if the pool is still too large, and ends its executor exactly if it was |
| EventExecutor.LookSleepsIff | TeaSpeakLibrary-1.4.10/src/EventLoop.cpp:161-163 | a look goes to sleep exactly if there is no shutdown, no mark and no node, and changes no other executor |
| EventExecutor.ShutdownBegins | TeaSpeakLibrary-1.4.10/src/EventLoop.cpp:110-115 | behind the start of a shutdown nobody sleeps |
| EventExecutor.ShutdownEnds | TeaSpeakLibrary-1.4.10/src/EventLoop.cpp:161-166 | during a shutdown an executor that looks ends, takes no node and stays ended |
| EventExecutor.ShutdownCanEnd | TeaSpeakLibrary-1.4.10/src/EventLoop.cpp:110-128 | a shutdown during which no executor is added can end once every executor has looked or had ended before |
| EventExecutor.OversizeProgress | TeaSpeakLibrary-1.4.10/src/EventLoop.cpp:168-185 | while the pool is too large, some executor is awake to shrink it |
| EventExecutor.ResizeAfterInitialize | TeaSpeakLibrary-1.4.10/src/EventLoop.cpp:20-51 | a resize to 0 directly after `initialize(n)` is taken for no change; every other resize takes effect |
| EventSound.RunSound | TeaSpeakLibrary-1.4.10/src/EventLoop.cpp:65-218 | with an unlinking cancel: the list is the queue, pointers are exact, nodes leave in FIFO order, and every scheduled node is exactly one of queued, run, expired, cancelled, over every run |
| EventSound.StepSound | TeaSpeakLibrary-1.4.10/src/EventLoop.cpp:65-218 | every step keeps that |
| EventSound.CancelSound | TeaSpeakLibrary-1.4.10/src/EventLoop.cpp:89-108 | with an unlinking cancel exactly the node of the entry leaves the queue |
| EventSound.ScheduleSound | TeaSpeakLibrary-1.4.10/src/EventLoop.cpp:65-87 | schedule appends a node for an entry that has none, and changes nothing otherwise |
| EventSound.TurnSound | TeaSpeakLibrary-1.4.10/src/EventLoop.cpp:158-214 | a look takes the first node of the queue, or nothing |
| EventSound.TurnRuns | TeaSpeakLibrary-1.4.10/src/EventLoop.cpp:196-218 | the node a look takes is run by that executor exactly if its entry lives, and expires otherwise; the entry is released and all other pointers stay |
| EventSound.HistoryGrows | TeaSpeakLibrary-1.4.10/src/EventLoop.cpp:89-218 | only looks run or expire nodes, and only a cancel deletes a node otherwise |
| EventSound.SoundIsListSound | TeaSpeakLibrary-1.4.10/src/EventLoop.cpp:65-214 | from a sound queue no step uses a deleted node, in either form of cancel |
| EventSound.RunListSound | TeaSpeakLibrary-1.4.10/src/EventLoop.cpp:65-214 | over every run that uses no deleted node, in either form: nodes still there are linked both ways, torn-off ones included, the tail is the only one without a successor, and the live entries point exactly at their nodes |
| EventSound.AssertionsHold | TeaSpeakLibrary-1.4.10/src/EventLoop.cpp:97-104 | none of the assertions in `cancel` and in the executor (99, 102, 199, 202, 213) fails as long as no deleted node is used |
| EventLoss.RunSoundIff | TeaSpeakLibrary-1.4.10/src/EventLoop.cpp:89-108 | as written, a run ends with a sound queue exactly if every cancel of a queued entry hit the head; what one cancel tears, no later step mends |
| EventLoss.HeadCancelsWake | TeaSpeakLibrary-1.4.10/src/EventLoop.cpp:89-196 | as written, nobody sleeps through anything as long as every cancel hits the head |
| EventLoss.RunKeepsTorn | TeaSpeakLibrary-1.4.10/src/EventLoop.cpp:89-108 | a node that is followed by a deleted one stays so over every run that uses no deleted node |
| EventLoss.CancelAsWrittenKeeps | TeaSpeakLibrary-1.4.10/src/EventLoop.cpp:89-108 | cancel as written at position k keeps `q[k+1..]`, which is the removal of the node exactly if k is 0 |
| EventLoss.CancelAsWrittenConserves | TeaSpeakLibrary-1.4.10/src/EventLoop.cpp:89-108 | it conserves nodes exactly if the cancelled one is the head |
| EventLoss.ExactAfterCut | TeaSpeakLibrary-1.4.10/src/EventLoop.cpp:93-104 | pointers are exact behind it exactly if no live entry was queued in front |
| EventLoss.CancelLoses | TeaSpeakLibrary-1.4.10/src/EventLoop.cpp:97-104 | it loses every live entry that was queued in front |
| EventLoss.CutOffComesBack | TeaSpeakLibrary-1.4.10/src/EventLoop.cpp:97-104 | cancelling a lost entry next, at position j in front of k, uses a deleted node exactly if j is k - 1; otherwise the queue becomes `q[j+1..k]` |
| EventLoss.FirstEntryLost | TeaSpeakLibrary-1.4.10/src/EventLoop.cpp:89-108 | the shortest run that loses an entry: one executor, two entries scheduled, the second one cancelled; with a proper unlink nothing is lost |
| EventLoss.LostUnlessRevived | TeaSpeakLibrary-1.4.10/src/EventLoop.cpp:65-108 | a lost entry that is neither cancelled nor destroyed stays lost exactly as long as no entry whose node leads to its own is cancelled, and does not run as long: scheduling it does nothing |
| EventLoss.AsleepBesideEvent | TeaSpeakLibrary-1.4.10/src/EventLoop.cpp:89-108 | three entries scheduled, the last cancelled, the only executor asleep, the first cancelled: the second is queued, nobody is awake, and the list has no tail |
| EventLoss.LostEntryRuns | TeaSpeakLibrary-1.4.10/src/EventLoop.cpp:89-108 | four entries scheduled, the last cancelled, which loses the second, the first cancelled: the second runs at the next look |
| EventSound.InitializedSound | TeaSpeakLibrary-1.4.10/src/EventLoop.cpp:37-51 | both invariants hold after initialize |
| NodeLists.CutLinked | TeaSpeakLibrary-1.4.10/src/EventLoop.cpp:97-104 | making the successor of the k-th node the head leaves exactly the chain behind it |
| NodeLists.UnlinkedLinked | TeaSpeakLibrary-1.4.10/src/EventLoop.cpp:89-108 | an unlink leaves exactly the chain without its k-th node |
| EventQueues.EventQueue.Append | TeaSpeakLibrary-1.4.10/src/EventLoop.cpp:70-82 | on the heap: the node becomes the last one, with all pointers as in the list on values |
| EventQueues.EventQueue.MakeHead | TeaSpeakLibrary-1.4.10/src/EventLoop.cpp:97-104 | on the heap: `head = node->next` with its two assertions, all pointers as in the list on values |
| EventQueues.EventQueue.Unlink | TeaSpeakLibrary-1.4.10/src/EventLoop.cpp:89-108 | on the heap: a proper unlink, all pointers as in the list on values |
| EventQueues.EventQueue.Schedule | TeaSpeakLibrary-1.4.10/src/EventLoop.cpp:65-87 | on the heap schedule is the schedule step, in every state of the executor; a fresh node carries entry and timestamp |
| EventQueues.EventQueue.Pop | TeaSpeakLibrary-1.4.10/src/EventLoop.cpp:196-214 | on the heap taking the head is the look of an executor; the assertions hold where they hold on values |
| EventQueues.EventQueue.Cancel | TeaSpeakLibrary-1.4.10/src/EventLoop.cpp:89-108 | on the heap cancel with a proper unlink is the unlinking cancel step |
| EventQueues.EventQueue.CancelAsWritten | TeaSpeakLibrary-1.4.10/src/EventLoop.cpp:89-108 | on the heap cancel as written is the cancel step as written, torn-off nodes included |
| LicenseSpec.ParseAfterExport | TeaSpeakLibrary-1.4.10/src/License.cpp:209-275 | parse(export(c)) is c, in both modes, exactly if no issuer holds a NUL and all times are whole seconds within 32 bits of the offset |
| LicenseSpec.ExportAfterParse | TeaSpeakLibrary-1.4.10/src/License.cpp:209-275 | export(parse(b)) is b for every accepted b, plus one NUL exactly if the last issuer ran into the end of the input |
| LicenseSpec.ExportIsCanonical | TeaSpeakLibrary-1.4.10/src/License.cpp:209-275 | whatever was parsed, in either mode, exports to bytes that parse to the same chain |
| LicenseSpec.NulIssuerIsRejected | TeaSpeakLibrary-1.4.10/src/License.cpp:188-196 | a chain whose issuer holds a NUL exports to bytes that its own parser rejects |
| LicenseSpec.DecodeEncoded | TeaSpeakLibrary-1.4.10/src/License.cpp:90-143 | reading a written entry in front of any bytes gives its times as stamped and its issuer up to the first NUL; what is behind the NUL is left for the next entry |
| LicenseSpec.EncodeDecoded | TeaSpeakLibrary-1.4.10/src/License.cpp:90-143 | writing an entry that was read gives the bytes it was read from, plus the missing NUL |
| LicenseSpec.StampRoundTrip | TeaSpeakLibrary-1.4.10/src/License.cpp:125-139 | a time survives exactly if it is a whole second within 32 bits of the offset |
| LicenseSpec.FromStampRoundTrip | TeaSpeakLibrary-1.4.10/src/License.cpp:125-139 | every stamp survives, and the time fits 64-bit nanoseconds |
| LicenseSpec.BigRoundTrip | TeaSpeakLibrary-1.4.10/src/misc/endianness.h:44-49 | 32-bit numbers survive the big-endian form |
| LicenseSpec.FromBigRoundTrip | TeaSpeakLibrary-1.4.10/src/misc/endianness.h:73-78 | four bytes survive the reading as a number |
| LicenseBytes.BigIsNumber | TeaSpeakLibrary-1.4.10/src/misc/endianness.h:44-49 | four bytes are the number they write to the base 256, the most significant one first |
| LicenseBytes.NumbersOrdered | TeaSpeakLibrary-1.4.10/src/misc/endianness.h:73-78 | the first byte in which four bytes differ decides which number is smaller |
| LicenseBytes.StampIsTime | TeaSpeakLibrary-1.4.10/src/License.cpp:125-127 | the time of four bytes is their number in seconds behind 1356998400 |
| LicenseBytes.StampCuts | TeaSpeakLibrary-1.4.10/src/License.cpp:137-140 | fractions of a second are cut off towards zero, and the count of seconds wraps around after 32 bits |
| LicenseBytes.IntermediateBytes | TeaSpeakLibrary-1.4.10/src/License.cpp:90-158 | the bytes of an intermediate entry and the entry they are read as |
| LicenseBytes.ServerBytes | TeaSpeakLibrary-1.4.10/src/License.cpp:90-186 | the bytes of a server entry and the entry they are read as |
| LicenseBytes.OtherBytes | TeaSpeakLibrary-1.4.10/src/License.cpp:90-207 | the bytes of the other three kinds of entries and the entries they are read as |
| LicenseBytes.KnownLicense | TeaSpeakLibrary-1.4.10/src/License.cpp:209-275 | one whole license as bytes: what it is read as and that it is written as these bytes |
| LicenseBytes.BrokenBlock | TeaSpeakLibrary-1.4.10/src/License.cpp:90-186 | a block cannot be read exactly if it is shorter than 42 bytes, does not begin with 0, has an unknown type, or lacks fixed bytes of its content, each with its error |
| LicenseBytes.BrokenTail | TeaSpeakLibrary-1.4.10/src/License.cpp:216-230 | a broken block behind a chain: the entries in front are returned with the error in the one mode, nothing in the other |
| LicenseBytes.OpenTail | TeaSpeakLibrary-1.4.10/src/License.cpp:153-230 | a chain without the NUL behind its last issuer is read as the chain |
| LicenseSpec.LineSplits | TeaSpeakLibrary-1.4.10/src/License.cpp:157-157 | a line up to NUL and the rest are the input, or the input is all line |
| LicenseChains.InputStream.ReadSome | TeaSpeakLibrary-1.4.10/src/License.cpp:93-98 | as many bytes as asked for or available, nothing noted at the end |
| LicenseChains.InputStream.GetLine | TeaSpeakLibrary-1.4.10/src/License.cpp:157-157 | the line up to NUL; the end of the input ends it and is noted |
| LicenseChains.LicenseEntry.ReadContent | TeaSpeakLibrary-1.4.10/src/License.cpp:153-207 | the five kinds of content, with their errors, as decoded |
| LicenseChains.LicenseEntry.WriteContent | TeaSpeakLibrary-1.4.10/src/License.cpp:161-207 | the bytes of the content; a failure is reported exactly by the server kind |
| LicenseChains.LicenseEntry.Write | TeaSpeakLibrary-1.4.10/src/License.cpp:132-143 | appends the encoding of the entry |
| LicenseChains.Read | TeaSpeakLibrary-1.4.10/src/License.cpp:90-129 | end, error or entry as decoded, with the stream behind it |
| LicenseChains.ReadRound | TeaSpeakLibrary-1.4.10/src/License.cpp:217-225 | one round of the parse loop |
| LicenseChains.ReadEntries | TeaSpeakLibrary-1.4.10/src/License.cpp:216-225 | the parse loop ends and reads all entries up to the end or the first error |
| LicenseChains.ParseStream | TeaSpeakLibrary-1.4.10/src/License.cpp:209-230 | accepts and rejects as the specification does, with its chain and error |
| LicenseChains.LicenseChain.ExportChain | TeaSpeakLibrary-1.4.10/src/License.cpp:268-275 | the export of the entries, whatever the writers report |
| PropertyIndex.PropertyListOrdered | TeaSpeakLibrary-1.4.10/src/PropertyDefinitions.cpp:43-71 | the validator accepts exactly the lists in which the entries of each type stand together and are numbered from 0 |
| PropertyIndex.AcceptedIffOrdered | TeaSpeakLibrary-1.4.10/src/PropertyDefinitions.cpp:53-69 | accepting entry by entry is that order |
| PropertyIndex.PropertyTypeBegin | TeaSpeakLibrary-1.4.10/src/Properties.h:607-613 | the first entry of the type, or the length of the list |
| PropertyIndex.PropertyTypeEnd | TeaSpeakLibrary-1.4.10/src/Properties.h:615-621 | on any list the run from begin on; on an ordered list begin and end cut out exactly the entries of the type, also where there are none |
| PropertyIndex.MakeListInfo | TeaSpeakLibrary-1.4.10/src/Properties.h:623-650 | begin and end of all eight types; on an ordered list the slice of every type is exactly its entries |
| PropertyIndex.DescribeRight | TeaSpeakLibrary-1.4.10/src/Properties.h:668-675 | describe(type, index) is the entry with that type and index, or undefined where there is none, exactly if the 64-bit sum does not wrap to in front of the end of the type |
| PropertyIndex.DescribeFindsEntry | TeaSpeakLibrary-1.4.10/src/Properties.h:668-675 | describe finds every entry of an ordered list |
| PropertyIndex.DescribeWraps | TeaSpeakLibrary-1.4.10/src/Properties.h:671-674 | for a large index the sum wraps and an entry of another type is returned |
| PropertyIndex.Find | TeaSpeakLibrary-1.4.10/src/Properties.h:677-698 | the first entry of the type whose name the query matches, capital letters standing for their small ones, else entry 0; nothing for long names and unknown types |
| PropertyIndex.MatchesIffSpells | TeaSpeakLibrary-1.4.10/src/Properties.h:687-690 | a query matches a valid name exactly if every character is that of the name or its capital letter |
| PropertyIndex.FindInvertsName | TeaSpeakLibrary-1.4.10/src/Properties.h:677-698 | a query that spells the name of an entry in small and capital letters finds it exactly if no earlier entry of the type has that name |
| PropertyCaches.AlwaysRightIffFaithful | TeaSpeakLibrary-1.4.10/src/Properties.h:784-870 | after any mix of reads and updates, each with a value of its type, every read is the parse of the current string, exactly if the converter of every type parses back what it prints of the values of that type |
| PropertyCaches.ReadsRightIffCoherent | TeaSpeakLibrary-1.4.10/src/Properties.h:784-817 | all reads are right exactly if the cached form is the parse of the string |
| PropertyCaches.UpdateCoherentIff | TeaSpeakLibrary-1.4.10/src/Properties.h:851-870 | an update keeps that exactly if it changes nothing or prints what parses back |
| PropertyCaches.NotifiedExactlyOnChange | TeaSpeakLibrary-1.4.10/src/Properties.cpp:79-86 | over every run the handlers are called once for each change of the string, in order, and `modified` says whether there was one |
| PropertyCaches.Property.As | TeaSpeakLibrary-1.4.10/src/Properties.h:784-800 | answers from the cache or by parsing, caches a successful parse, and changes nothing else |
| PropertyCaches.Property.AsOr | TeaSpeakLibrary-1.4.10/src/Properties.h:803-817 | the same with a fallback for a failing parse |
| PropertyCaches.Property.UpdateValue | TeaSpeakLibrary-1.4.10/src/Properties.h:851-870 | string, cache, mark and notification change together, exactly if the string differs |
| PropertyCaches.Property.IncrementBy | TeaSpeakLibrary-1.4.10/src/Properties.h:880-889 | the sum replaces the value and is cached at the type of the sum, which differs for narrow integers; a string that does not parse is left alone |
| PropertyCaches.FixedPointPrints | TeaSpeakLibrary-1.4.10/src/converters/converter.cpp:16-37 | two numbers as they are printed, rounded and with a sign |
| PropertyCaches.FixedPointUnfaithful | TeaSpeakLibrary-1.4.10/src/converters/converter.cpp:16-37 | a type whose numbers are printed with six digits behind the point is not faithful whatever its parser does, and reads of it go wrong |
| ChannelPaths.SplitInvertsJoinIff | TeaSpeakLibrary-1.4.10/src/BasicChannel.cpp:241-254 | splitting a joined path gives the names back exactly if there are 1 to 256 of them, none holds a slash, and none but the last is empty or ends with a backslash |
| ChannelPaths.SplitCanonical | TeaSpeakLibrary-1.4.10/src/BasicChannel.cpp:241-254 | whatever comes out of a path has that form |
| ChannelPaths.SplitLaws | TeaSpeakLibrary-1.4.10/src/BasicChannel.cpp:241-254 | how every path is split from any place on: slashes in front and names that end with a backslash are skipped, other names in front of a slash are found, at most 255 with more behind them, and the rest without a slash is a name |
| ChannelPaths.EscapedSlashDropsName | TeaSpeakLibrary-1.4.10/src/BasicChannel.cpp:246-249 | an escaped slash takes the name in front of it away |
| ChannelPaths.SplitPath | TeaSpeakLibrary-1.4.10/src/BasicChannel.cpp:238-254 | the loop ends on every path and yields the unescaped names |
| ChannelTrees.ByPathInvertsPath | TeaSpeakLibrary-1.4.10/src/BasicChannel.cpp:229-264 | where sibling names are unique, the joined path of a channel resolves to it exactly if its names are canonical, for any unescaping that leaves the names and the split path as they are |
| ChannelTrees.ResolvesIffPath | TeaSpeakLibrary-1.4.10/src/BasicChannel.cpp:256-263 | a list of names leads to a channel exactly if it is its path from the root |
| ChannelTrees.PathResolves | TeaSpeakLibrary-1.4.10/src/BasicChannel.cpp:256-263 | the path of every channel of the tree resolves |
| ChannelTrees.ChannelTree.FindChannel | TeaSpeakLibrary-1.4.10/src/BasicChannel.cpp:216-226 | the first channel with the id; none for 0 |
| ChannelTrees.ChannelTree.FindChannelByName | TeaSpeakLibrary-1.4.10/src/BasicChannel.cpp:229-236 | the first channel with that name and parent |
| ChannelTrees.ChannelTree.FindChannelByPath | TeaSpeakLibrary-1.4.10/src/BasicChannel.cpp:238-264 | resolves the split path from the root |
| ChannelTrees.ChannelTree.GenerateChannelId | TeaSpeakLibrary-1.4.10/src/BasicChannel.cpp:339-343 | ends, with the least unused positive id |
| ChannelTrees.ChannelTree.CreateChannel | TeaSpeakLibrary-1.4.10/src/BasicChannel.cpp:266-287 | refuses exactly a missing parent or predecessor or a taken name; otherwise one fresh channel with the least unused id joins the tree, at its place or, where the tree refuses that, at the end of the root list with a failure reported; ids stay unique; sibling names stay unique exactly if the place is accepted or no root channel has the name; every channel stays listed below its parent exactly if the place is refused or the predecessor is missing or a child of the parent |
| ChannelTrees.ChannelTree.InsertEntry | TeaSpeakLibrary-1.4.10/src/channel/TreeView.cpp:166-187 | the entry is appended to the root list and moved from there; the result tells whether the place was accepted, and a refused entry keeps its place at the end of the root list |
| ChannelTrees.ChannelTree.MoveEntry | TeaSpeakLibrary-1.4.10/src/channel/TreeView.cpp:189-253 | moving the appended entry cuts it out and links it behind its predecessor or as the first child, exactly if the predecessor is not the parent and is in reach |
| ChannelTrees.ParentIsNoPredecessor | TeaSpeakLibrary-1.4.10/src/channel/TreeView.cpp:191-191 | no channel is accepted behind its own parent |
| ChannelTrees.RefusedPlaceClashes | TeaSpeakLibrary-1.4.10/src/BasicChannel.cpp:266-287 | from an empty tree: after two root channels, a channel created below the first with the first as predecessor and the name of the second passes every check, is reported as failed, and leaves two root channels of one name |
| ChannelTrees.AcceptedPlaceStrays | TeaSpeakLibrary-1.4.10/src/BasicChannel.cpp:266-287 | with root channels b and a in that order, a channel created below b with a as predecessor is accepted and listed behind a in the root list |
| ChannelTrees.CreatedBetween | TeaSpeakLibrary-1.4.10/src/BasicChannel.cpp:266-287 | with root channels b and a in that order, a root channel created behind b comes between them |
| ChannelTrees.SiblingAccepted | TeaSpeakLibrary-1.4.10/src/channel/TreeView.cpp:153-164 | where every channel is listed below its parent, a child of the parent is always accepted as the predecessor |
| ChannelTrees.GrownWellPlacedIff | TeaSpeakLibrary-1.4.10/src/channel/TreeView.cpp:189-253 | listing every channel below its parent is kept exactly if the place is refused or the predecessor is missing or a child of the parent |
| ChannelTrees.GrownNamesIff | TeaSpeakLibrary-1.4.10/src/channel/TreeView.cpp:166-187 | after an insertion sibling names are unique exactly if the name was free where the tree put the channel |
| TreeViews.GrownListing | TeaSpeakLibrary-1.4.10/src/channel/TreeView.cpp:56-67 | the depth-first listing after an insertion is the old one with the new entry directly behind its predecessor and what is below that, directly behind its parent, in front of all, or, where it is refused, behind all |
| TreeViews.GrownWhere | TeaSpeakLibrary-1.4.10/src/channel/TreeView.cpp:166-253 | the new entry stands between its predecessor and the siblings behind that, in front of the children of its parent, in front of the root list, or, where it is refused, behind it; taking it out again gives the tree as it was |
| TreeViews.AcceptsIff | TeaSpeakLibrary-1.4.10/src/channel/TreeView.cpp:153-207 | a predecessor is accepted exactly if it is a sibling behind the parent or a child of the parent or of such a sibling; without a parent, exactly if it is a root entry or a child of one |
| TreeViews.GrandchildRefused | TeaSpeakLibrary-1.4.10/src/channel/TreeView.cpp:153-207 | nothing below the children of the parent is accepted as the predecessor |
| TreeViews.AcceptsAppended | TeaSpeakLibrary-1.4.10/src/channel/TreeView.cpp:176-207 | the test gives the same answer with the new entry at the end of the root list |
| TreeViews.CutAppended | TeaSpeakLibrary-1.4.10/src/channel/TreeView.cpp:255-281 | cutting the appended entry out restores the tree |
| ChannelTrees.InsertKeepsNamesIff | TeaSpeakLibrary-1.4.10/src/BasicChannel.cpp:276-286 | sibling names stay unique exactly if the name is free below the place |
| ChannelTrees.InsertKeepsTree | TeaSpeakLibrary-1.4.10/src/BasicChannel.cpp:266-287 | ids stay unique and positive, parents in the tree, and nobody becomes its own ancestor |
| ChannelTrees.Channel.Update | TeaSpeakLibrary-1.4.10/src/BasicChannel.cpp:40-48 | a change of the default flag clears the password flag; the nested notification ends |
| ChannelTrees.ChannelTree.SetDefaultChannel | TeaSpeakLibrary-1.4.10/src/BasicChannel.cpp:309-320 | exactly the given channel of the tree carries the default flag and loses its password flag; among the others exactly those whose default flag changed lose theirs; null is refused |
| ChannelTrees.ChannelTree.GetDefaultChannel | TeaSpeakLibrary-1.4.10/src/BasicChannel.cpp:322-329 | the first channel whose default flag parses as true, or none |
| ChannelTrees.ChannelTree.DefaultChannelFound | TeaSpeakLibrary-1.4.10/src/BasicChannel.cpp:309-329 | after setting a channel of the tree as default, it is the one found |

## Left out

- Thread scheduling inside one slot write, and memory ordering: each slot write is one step, and freeing a block
  while it is in use is excluded by taking `cleanup` as quiescent.
- The 16-bit width of block use counts and thread counts below zero; use counts and ids are unbounded numbers.
- FlushBlock writes its block back once, where the source updates one slot after the other under one lock.
- LoadTable: the table of a channel, all of whose rows are loaded as slots (DatabaseHelper.cpp:218).
- PermissionRace: overrides that a flush removes from the list keep their place, so that the list only grows.
- The read-only lists `channel_permissions()` and the memory statistics of the permission manager.
- Text of log messages in `build_chain`; a log line is a value naming the case and the ids involved.
- EventExecutor: the destructor and its queue reset, `initialize` after a shutdown (the list of threads is never
  cleared), thread names, and clock values beyond the timestamp a node carries.
- EventExecutor: the code behind a step that uses a deleted node; runs end in front of such a step, which is where a
  cancel or a look would make a deleted node the head.
- EventQueue: nodes that leave the queue are not freed.
- Key derivation, hashing, private keys and the printing of license chains; private keys are not part of the format.
- LicenseChains: `readsome`, `getline` and `ostream` are part of the C++ library; they are modelled for string
  streams, where all remaining bytes are available at once.
- Negative property indices: the enumerations behind the list start at 0.
- PropertyIndex.Find: `tolower` is that of ASCII.
- Converters and notify handlers of properties are parameters, and a call of the handlers is recorded by its string.
  The numbers of FixedPointUnfaithful are exact; rounding to binary is not modelled.
- The handler's branches for channel id and order, which refresh cached numbers, and the parsed-value cache behind
  the two channel flags.
- `query::unescape` is a parameter: ByPathInvertsPath asks it to leave the names and the split path alone.
- TreeView: moving a channel that has been in the tree before, deleting channels, and the predecessor ids. Entries of
  the tree are values, where the source has nodes linked by pointers.
- Execution of SQL beyond the effect of the three statements on the row of a key (DatabaseHelper.cpp:231-233, 325-357).
- The legacy permission manager, the tables of permissions and properties, command parsing, packets, logging and the
  client are not modelled.
