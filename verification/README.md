# Jani kernel: verified models

Jani is a small persistent kernel built on capabilities. This project models its state machines in
Dafny and proves what they keep. Code that works in place is modelled in place: classes, arrays and
loops, each method proved against a specification function, and theorems about those functions.

| part | modules |
|---|---|
| crash-safe object store, snapshots, collection | `ObjectIds`, `ObjectTables`, `Layout`, `BlockDevice`, `Recovery`, `Bitmap`, `Requests`, `Generations`, `ObjectStores`, `StoreRuns`, `StoreLives` |
| LRU cache over the store | `Cache`, `CachedStores`, `CacheRuns`, `Rooms`, `CacheFailures`, `CacheReturns` |
| two-node component migration | `Migrations`, `MigrationSafety`, `MigrationTheorems`, `MigrationTerms`, `MigrationProgress`, `MigrationNodes`, `MigrationRuns` |
| capabilities | `Mailboxes`, `Derivations`, `CapTables`, `Domains`, `CapabilityDomains`, `DomainUpgrade`, `DomainRuns` |
| paging and physical frames | `Frames`, `PageTables` |
| kernel heap | `Heaps` |
| scheduler | `Schedules` |
| record and replay | `Replays` |
| replicated objects | `Crdts`, `Replicas`, `ReplicaSafety`, `ReplicaTheorems`, `ReplicaProgress`, `ReplicaNodes`, `ReplicaRuns` |
| introsort | `Sorting` |

`dafny verify dfyconfig.toml` checks all of it.

## How the parts are modelled

- **Disk.** Sectors hold abstract records. A request is served, lost, or served and reported failed,
  as an arbitrary schedule decides. A crash keeps any subset of the unflushed writes. A ghost history
  records every state of the device, so a theorem about "a crash at any point" is a statement about
  every element of that history.
- **Migration and replicas.** A state is two nodes, each with its store and its memory, plus every
  message ever sent. Any message may arrive at any time, any number of times, or never. A batch is
  committed, refused, or uncertain, with or without having landed; an uncertain node stops until it
  is reopened.
- **Capabilities.** One invariant ties slot tables, mailboxes and the derivation forest together. It
  holds inside transactions too, after every single call.
- **Replay.** A handler is any deterministic machine that asks, is answered and stops.
- **Paging.** An entry is a frame number and a set of flags; page, table and frame numbers are those
  of 4-level paging, section 4.5 of the Intel SDM, volume 3A. The tree the boot loader left is any
  tree in which no frame serves two places.

## Where the code does not do what one might expect

Each of these is stated with the exact condition under which the expected property holds.

- The cache can answer with bytes that are not the ones on disk after a rollback, because rollback and
  deletion make version numbers repeat. Three histories show it: a batch of two after a rollback
  (`RollbackThenBatch`), returning from another branch (`BranchAndReturn`), and writing anew what was
  deleted (`EraseAndReturn`). Exactly: every answer is right until a put hands out a version that a
  slot it does not refresh, or a snapshot, has with another content (`CachedStore.Put`,
  `CachedStore.Rollback`, `ServeAll`); from then on some read can be wrong (`ReadWrong` for a slot,
  `MuddleShows` for a snapshot).
- An object can be accepted and then be unreadable once it leaves the cache, if the buffer is not a
  multiple of the sector size (`UnreadableOnceEvicted`; exact condition in `ColdReadable`).
- A refused departure overwrites the record of a finished migration. A letter posted afterwards is
  lost and fences another component for good (`RefusedDepartureThenPost`, reached in
  `RefusedDepartureHappens`). A letter is also accepted and lost when the import has left its peer
  again (`MovedOnIsLost`, reached in `MovedOnHappens`). Exactly when an accepted letter can arrive is
  `PostArrivesExactly`.
- A policy accepted in the middle of a frame may promise cycles that are already spent
  (`LatePromiseBreaks`; exact condition in `ReconfiguredExactly`).
- Two replicas of a set may never be equal again, because a merge that would exceed the sixteen dots
  of a set is refused (`NeverMeet`, reached in `ApartHappens`). Exactly when they can be is
  `CanMeetExactly`.
- A refused mapping can widen what an existing page allows, because the entries on the way gain
  rights before the leaf is looked at (`RefusedMapWidens`). Exactly where it cannot is `FullExactly`;
  `Map` and `Unmap` keep that condition, so it takes tables left by the boot loader.

## Model

| member | source | states |
|---|---|---|
| StoreRuns.Run | kernel/obj/object_store.c:895-1503 | for any operations in any order and any faults: an operation that reports success has exactly its effect; one that fails leaves the state before it, or its goal only if one of its requests failed; where none failed it succeeds exactly if it was feasible; a power failure at any device state on the way leaves the state before the operation under way or its goal, and between operations the table that is served |
| StoreRuns.PowerCycle | kernel/obj/object_store.c:751-819 | every image a crash can leave mounts unless the device fails, serves exactly the surviving table and snapshots, and a second failure while mounting changes nothing |
| StoreLives.LiveOn | kernel/obj/object_store.c:751-1503 | run, lose power at any point, mount any image that leaves, run again, any number of times: each stretch begins with what the one before may have left |
| StoreLives.CrashWakes | kernel/obj/object_store.c:751-819 | every image a power failure leaves at any point of a run mounts into something that run accounts for |
| StoreLives.EveryPlatter | kernel/obj/object_store.c:751-1503 | every state the device went through is one of the points where the power may fail |
| StoreLives.SnapshotOutlives | kernel/obj/object_store.c:751-1503 | a snapshot kept while the power was on is kept through every later power failure and run, unless an operation begun in between dropped it |
| StoreLives.RollbackOutlives | kernel/obj/object_store.c:751-1420 | and rolling back to it in a later life restores exactly the table and bytes it named |
| StoreRuns.SnapshotSurvives | kernel/obj/object_store.c:1307-1503 | in every run, until it is dropped, a snapshot names the same table and object bytes in every state the store may hold or wake up with, whatever failed before or since |
| StoreRuns.RollbackRestores | kernel/obj/object_store.c:1363-1420 | a rollback that reports success, at any later point of any run, leaves the store serving exactly the table and bytes the snapshot named |
| StoreRuns.TakenIsKept | kernel/obj/object_store.c:1307-1361 | a snapshot that reports success has a new id and is in every archive a crash may leave, also after earlier faults |
| StoreRuns.SnapshotThenRollback | kernel/obj/object_store.c:1307-1420 | a snapshot taken in the middle of any run and rolled back to later brings back the very state it was taken of |
| StoreRuns.Perform | kernel/obj/object_store.c:895-1503 | success means exactly its effect, failure without quarantine means none; an operation succeeds if it was feasible and none of its requests failed; the crash states in between are the two ends |
| StoreRuns.Advance | kernel/obj/object_store.c:751-819 | an operation followed, if the store quarantined itself, by a mount: the result is the old state or the goal, and with one outcome only |
| BlockDevice.Device.WriteSector | kernel/obj/object_store.c:395-415 | a request is served, lost, or served and reported failed; a served write joins the volatile buffer |
| BlockDevice.Device.Flush | kernel/obj/object_store.c:395-415 | a served flush makes exactly what reads return durable |
| BlockDevice.Device.ReadSector | kernel/obj/object_store.c:552-586 | a read returns the newest buffered write of the sector, or the durable content |
| BlockDevice.CrashYieldsImage | kernel/obj/object_store.c:751-819 | any subset of the buffered writes surviving gives an image in which each sector holds one of its possible values |
| BlockDevice.ImageComesFromCrash | kernel/obj/object_store.c:751-819 | conversely every such image is left by some crash |
| Recovery.CrashRecovers | kernel/obj/object_store.c:608-646 | from a safe device state every crash image mounts, leads to an expected generation, and has its table and every object sector intact |
| Recovery.CrashDecides | kernel/obj/object_store.c:751-819 | the image a crash leaves is safe by itself with one outcome and one snapshot list |
| Recovery.WriteSuper | kernel/obj/object_store.c:395-415 | a superblock that leads to an expected root with every log record may be written at any time |
| Recovery.WriteWal | kernel/obj/object_store.c:514-538 | a log record that leads every superblock to an expected, durable root may be written at any time |
| Recovery.WriteOutside | kernel/obj/object_store.c:477-512 | a write outside every held generation is invisible to recovery |
| Recovery.SlotParity | kernel/obj/object_store.c:395-415 | the sequence number has the parity of its slot, so the two superblocks never tie |
| ObjectTables.ObjectTable.Lookup | kernel/obj/object_table.c:24-59 | binary search finds exactly the entry of that id |
| ObjectTables.ObjectTable.Upsert | kernel/obj/object_table.c:61-126 | accepts exactly valid entries with a higher version or a free place, and replaces or inserts in order |
| ObjectTables.ObjectTable.Remove | kernel/obj/object_table.c:128-174 | removes exactly the entry of that id and blanks the place it frees, or nothing |
| ObjectTables.FindMeansMember | kernel/obj/object_table.c:24-59 | lookup agrees with membership |
| ObjectTables.UpsertedMeaning | kernel/obj/object_table.c:61-126 | an upsert keeps the table sorted and changes exactly one id |
| ObjectTables.RemovedMeaning | kernel/obj/object_table.c:128-174 | a removal keeps the table sorted and drops exactly one id |
| ObjectTables.SortedTableIsDetermined | kernel/obj/object_table.c:61-126 | a sorted table is determined by its entries, so the order of upserts does not matter |
| Bitmap.Allocator.Allocate | kernel/obj/object_store.c:134-163 | the lowest free run that is long enough is marked; failure exactly when there is none |
| Bitmap.Allocator.SetRange | kernel/obj/object_store.c:110-120 | marks exactly the sectors of a run |
| Bitmap.Allocator.ClearRange | kernel/obj/object_store.c:122-132 | clears exactly the sectors of a run |
| Bitmap.ClearUndoesMark | kernel/obj/object_store.c:122-132 | releasing a run that was free when taken restores the bitmap |
| Bitmap.SpareFits | kernel/obj/object_store.c:134-163 | a free tail that is long enough takes any runs by first fit, and what is left of it stays free |
| Layout.EncodeRoundTrip | kernel/obj/object_store.c:849-893 | an encoded object reads back with its own header and payload |
| Requests.Stage | kernel/obj/object_store.c:831-985 | accepts exactly the batches of valid requests with distinct ids, a next version each, and room in the table |
| Requests.MergeAllMeaning | kernel/obj/object_store.c:895-1123 | merging a batch into the table keeps the order and replaces exactly the ids of the batch |
| Generations.NextGeneration | kernel/obj/object_store.c:446-512 | once its objects and table are written, the new generation is complete on disk |
| Generations.PutDone | kernel/obj/object_store.c:895-1123 | a published batch gives every requested id its next version and an object of exactly the header fields and bytes asked for, and leaves every other object alone |
| Generations.PutMeans | kernel/obj/object_store.c:831-893 | field by field: every request reads back with its own id, type, creator, modifier, timestamp, size and bytes, under the version after the one its object had, or version 1 |
| Generations.DeleteDone | kernel/obj/object_store.c:1230-1305 | a published deletion removes exactly one object |
| ObjectStores.ObjectStore.PutMany | kernel/obj/object_store.c:895-1123 | the batch is atomic under crashes; rejected changes nothing, committed reads back every request field by field under its next version at the first-fit places, and an admissible batch commits unless one of its own requests fails |
| ObjectStores.ObjectStore.Delete | kernel/obj/object_store.c:1230-1305 | deletion is atomic under crashes and succeeds exactly for deletable objects unless one of its own requests fails |
| ObjectStores.ObjectStore.Publish | kernel/obj/object_store.c:1068-1093 | logging the root, switching, writing the superblock and clearing the log: a crash anywhere finds the old or the new generation, a failure quarantines |
| ObjectStores.ObjectStore.Checkpoint | kernel/obj/object_store.c:395-415 | writing the inactive superblock keeps the table and the archive, whatever fails |
| ObjectStores.ObjectStore.LogRoot | kernel/obj/object_store.c:514-538 | a crash on the way leaves the old or the new generation; success commits the store to the new root, failure quarantines it with either possible |
| ObjectStores.ObjectStore.ClearLog | kernel/obj/object_store.c:540-550 | with the newest superblock already leading here, no crash while clearing the log changes the outcome |
| ObjectStores.ObjectStore.WriteBatch | kernel/obj/object_store.c:1049-1066 | object and table sectors are written where nothing reachable lies |
| ObjectStores.ObjectStore.Place | kernel/obj/object_store.c:986-1042 | objects and table get disjoint free runs, exactly when first fit has room for all of them, and the high-water mark rises just to their end; otherwise bitmap and mark are as before |
| ObjectStores.ObjectStore.Mount | kernel/obj/object_store.c:751-819 | succeeds exactly when the image makes sense and none of its requests fails; from a durable state it restores one of the possible generations with its snapshots |
| ObjectStores.ObjectStore.Replay | kernel/obj/object_store.c:608-646 | completing a logged commit while mounting: the outcome is one of those the crash allowed, and a further crash on the way allows no others |
| ObjectStores.ObjectStore.Format | kernel/obj/object_store.c:708-749 | leaves an empty, valid store, and fails only on a fault or an impossible configuration |
| ObjectStores.ObjectStore.ReadTableGeneration | kernel/obj/object_store.c:552-586 | reads back exactly the table a root names, or fails if it is malformed |
| ObjectStores.ObjectStore.MarkGeneration | kernel/obj/object_store.c:648-676 | marks exactly the sectors reachable from a root |
| ObjectStores.ObjectStore.RebuildBitmap | kernel/obj/object_store.c:678-706 | afterwards exactly the headers and what the table and the snapshots reach are marked |
| ObjectStores.ObjectStore.Collect | kernel/obj/object_store.c:1456-1462 | reclaims every sector neither the table nor a snapshot reaches, and no other |
| ObjectStores.ObjectStore.SnapshotCreate | kernel/obj/object_store.c:1307-1361 | the archive gains exactly the current generation under the next id; exactly when it must fail it changes nothing |
| ObjectStores.ObjectStore.SnapshotRollback | kernel/obj/object_store.c:1363-1420 | table and bytes are exactly those of the snapshot; crash outcomes are before and after |
| ObjectStores.ObjectStore.SnapshotDiscard | kernel/obj/object_store.c:1422-1454 | the archive loses exactly that snapshot |
| ObjectStores.ObjectStore.SnapshotPrune | kernel/obj/object_store.c:1464-1503 | only the oldest snapshots go until at most the wanted number is left, then collection reclaims their sectors |
| Cache.ObjectCache.RemoveSlot | kernel/obj/object_store.c:206-228 | one object goes, its hole is closed and every other object keeps its bytes |
| Cache.ObjectCache.EvictLru | kernel/obj/object_store.c:230-247 | evicts the least recently used object |
| Cache.ObjectCache.Evict | kernel/obj/object_store.c:292-299 | evicts until a slot and the bytes are free; both loops end because slots tile the arena |
| Cache.ObjectCache.Insert | kernel/obj/object_store.c:266-313 | the id has one slot, holding the new bytes; only what had to go went; refused exactly when it could never fit |
| Cache.ObjectCache.Lookup | kernel/obj/object_store.c:249-264 | finds the slot of that id and version |
| Cache.RemoveTiles | kernel/obj/object_store.c:206-228 | closing a hole keeps the slots tiling the used part of the arena |
| Cache.MakeRoomIsLru | kernel/obj/object_store.c:230-247 | everything evicted was used less recently than everything kept, and nothing is evicted that fits |
| CachedStores.CachedStore.Get | kernel/obj/object_store.c:1149-1228 | answers exactly for objects cached in the table version or small enough for the buffer, and what it answers is the most recently used; a truthful cache answers what the disk holds |
| CachedStores.CachedStore.Put | kernel/obj/object_store.c:1095-1104 | the cache stays truthful exactly if the batch refreshes it or no slot carries a version the batch hands out again; it stays so for every snapshot one may return to exactly if besides no snapshot lists such a version with another content |
| CachedStores.CachedStore.Rollback | kernel/obj/object_store.c:1363-1420 | the cache is left alone, and is truthful afterwards exactly if no slot carries a version the snapshot lists with another content |
| CachedStores.CachedStore.Delete | kernel/obj/object_store.c:1297-1302 | the slot of the object goes and the cache stays truthful |
| CachedStores.CachedStore.ColdRead | kernel/obj/object_store.c:1175-1228 | a cold read returns the object the table names, if it fits the buffer |
| CachedStores.PutCoherentExactly | kernel/obj/object_store.c:1095-1104 | a batch that does not refresh leaves the cache coherent exactly if no cached version is reassigned |
| CachedStores.ClearPut | kernel/obj/object_store.c:895-1123 | slots, table and snapshots stay free of a version with two contents exactly if the batch hands out none that a slot or a snapshot has with another content |
| CachedStores.ClearRefresh | kernel/obj/object_store.c:1095-1104 | the same for a put that refreshes its slot |
| CachedStores.StaleAfterRollback | kernel/obj/object_store.c:1363-1420 | a version cached before a rollback and assigned again after it answers for the wrong bytes |
| CacheRuns.ServeAll | kernel/obj/object_store.c:1149-1228 | every history, rollbacks and deletions included: each call changes disk and snapshots as it reports, and each read is answered with exactly what the disk holds then, as long as no call before went back or none handed out a version still around with another content |
| CacheRuns.Serve | kernel/obj/object_store.c:831-1462 | one call: exactly the puts that hand out such a version end the state in which every rollback is harmless |
| CacheRuns.OnwardIsUnmuddled | kernel/obj/object_store.c:895-1420 | a history that never erased nor went back has handed out no version twice, so any rollback from there leaves the cache truthful |
| CacheFailures.RollbackThenBatch | kernel/obj/object_store.c:1363-1420 | the history write, snapshot, write, roll back, write in a batch of two, read: with room every step succeeds unless a request fails, and the read returns the write that was rolled back while the disk holds the batch |
| Rooms.RoomAdmits | kernel/obj/object_store.c:831-1042 | where there is room a batch of acceptable requests is admissible and uses no more than its share |
| Rooms.AcceptableExactly | kernel/obj/object_store.c:831-847 | one to eight requests, each with an id, a type and a size within the buffer, no id twice |
| Rooms.AdmissibleExactly | kernel/obj/object_store.c:895-1042 | besides, no version runs out, the merged table fits its capacity and first fit has room |
| CacheFailures.FormattedIsAmple | kernel/obj/object_store.c:708-749 | a freshly formatted store of sufficient size has that room |
| CacheReturns.AmbiguityShows | kernel/obj/object_store.c:1149-1420 | whenever table and snapshot list one version with two contents and the object can be cached, read, roll back, read: one of the answers is wrong |
| CacheReturns.ReadWrong | kernel/obj/object_store.c:1149-1228 | a slot that carries the version in the table with another content answers, and answers wrong |
| CacheReturns.MuddleShows | kernel/obj/object_store.c:895-1420 | a put that hands out a version some snapshot lists with another content, then read, roll back, read: one of the answers is wrong |
| CacheReturns.BranchAndReturn | kernel/obj/object_store.c:895-1420 | the history write, snapshot, write, snapshot, roll back to the first, write alone, roll back to the second, read: with room every step succeeds unless a request fails, and the read returns the last write while the disk holds the one before |
| CacheReturns.EraseAndReturn | kernel/obj/object_store.c:895-1420 | the history write, snapshot, delete, write anew, roll back, read: with room every step succeeds unless a request fails, and the read returns the later write while the disk holds the earlier one |
| CacheFailures.ColdReadable | kernel/obj/object_store.c:1182-1190 | an accepted object can be read cold exactly if it fits the whole sectors of the buffer; always if the buffer is a multiple of a sector |
| CacheFailures.UnreadableOnceEvicted | kernel/obj/object_store.c:1149-1228 | the history store, store another, read: with room it succeeds unless a request fails, and the read finds nothing although the object is intact on disk |
| MigrationTheorems.NoDualOwner | kernel/net/migration.c:130-242 | in every reachable state, if the target holds an import and its receipt, the source holds the fence, lacks the root and can never run it |
| MigrationTheorems.OneOwnerPerJourney | kernel/net/migration.c:130-242 | however often a component moved back and forth, at most one of its places can run it |
| MigrationTheorems.ImportedAtMostOnce | kernel/net/migration.c:80-91 | no component has two imports and no import two sources |
| MigrationTheorems.ReceivedPrefix | kernel/net/migration.c:349-381 | what a target has received is always a prefix of the bundle fenced at the source |
| MigrationTheorems.ImportIsFaithful | kernel/net/migration.c:200-242 | an import appears with its receipt, once, with exactly the fenced code, mailbox and memory, and with the fenced slots: empty stays empty, every occupied one names the new root with the same rights, so the import refers to nothing but itself |
| MigrationTerms.ImportsExactly | kernel/net/migration.c:200-242 | a bundle is imported exactly if it is complete, addressed to this node, new, and refers to nothing but itself, and there is room |
| MigrationTerms.LeavesExactly | kernel/net/migration.c:140-199 | a component leaves exactly if the node is healthy and idle, nothing else refers to it and its bundle is not too large; then it is fenced under the next generation with its whole bundle and out of the registry, and nothing else changed |
| MigrationTerms.ResumesExactly | kernel/net/migration.c:130-139 | a fenced migration is taken up again exactly if its component is as it was fenced, at the phase its fence says |
| MigrationTerms.PostsExactly | kernel/net/migration.c:398-416 | a letter is accepted exactly if the migration is complete, the letter short and no other waits; then it is queued under the next sequence number and nothing else changed |
| MigrationTerms.DeliversExactly | kernel/net/migration.c:279-314 | a letter is delivered exactly if it is the next one, its component is attached and the mailbox has room |
| MigrationTerms.AttachesExactly | kernel/net/migration.c:383-390 | a component is attached exactly if it was imported here and can run |
| MigrationTerms.WithoutMeans | kernel/net/migration.c:140-199 | leaving takes exactly one entry out of the registry |
| MigrationTerms.PriorMeans | kernel/net/migration.c:140-199 | the generation of a bundle follows the one in the receipt of its component, or starts at 1 |
| MigrationTerms.RegistriesFit | kernel/net/migration.c:200-242 | no run makes a node host more than four components |
| MigrationTheorems.LettersArriveInOrder | kernel/net/migration.c:279-332 | the target forward counter is the source one or one less, equal if the outbox is empty, and delivered letters are the posted ones in order, each once |
| MigrationTheorems.DeliveryIsOneAppend | kernel/net/migration.c:279-314 | a delivery appends that letter to that durable mailbox and changes nothing else |
| MigrationTheorems.StrayPostIsLost | kernel/net/migration.c:398-416 | a letter accepted while the endpoint knows no target never reaches any import |
| MigrationTheorems.PostCanArrive | kernel/net/migration.c:398-416 | a letter accepted for a known target can arrive as long as the import is still at the peer |
| MigrationTheorems.PostArrivesExactly | kernel/net/migration.c:279-416 | in every reachable state an accepted letter arrives in some run exactly if the record names a target and that is registered and not fenced at the peer |
| MigrationTheorems.MovedOnIsLost | kernel/net/migration.c:279-416 | once the import has left the peer or is fenced there, a letter accepted for it never arrives in any run |
| MigrationProgress.MovedOnHappens | kernel/net/migration.c:130-416 | runs from two empty stores reach an endpoint that accepts letters for an import that has left again |
| MigrationTheorems.RefusedDepartureThenPost | kernel/net/migration.c:140-199 | after a complete migration a refused departure of a second component followed by a post for the first fences the second for good |
| MigrationProgress.DepartureCanComplete | kernel/net/migration.c:130-382 | from every reachable state, whatever was lost and whichever node went down, a fenced component can still be imported if the target has room or has it already, and the source can learn of it |
| MigrationProgress.FerriedAll | kernel/net/migration.c:259-381 | chunk by chunk and acknowledgement by acknowledgement both endpoints agree on a growing prefix until the target has the whole bundle |
| MigrationProgress.RefusedDepartureHappens | kernel/net/migration.c:130-382 | runs from two empty stores reach such a state: one migration complete, a second component free to leave |
| MigrationSafety.EveryRunIsSafe | kernel/net/migration.c:96-416 | every event at either node, with loss, repetition, crashes and uncertain commits, keeps the invariant |
| MigrationSafety.LeaveKeeps | kernel/net/migration.c:140-199 | fencing and leaving the registry in one batch keeps the invariant whatever the batch does |
| MigrationSafety.HearEndKeeps | kernel/net/migration.c:200-242 | importing with a receipt in one batch keeps the invariant whatever the batch does |
| MigrationSafety.HearForwardKeeps | kernel/net/migration.c:279-314 | delivering a letter and counting it in one batch keeps the invariant |
| MigrationSafety.PostKeeps | kernel/net/migration.c:398-416 | queueing a letter in the outbox keeps the invariant |
| MigrationSafety.HearForwardAckKeeps | kernel/net/migration.c:325-332 | clearing the outbox on an acknowledgement keeps the invariant |
| MigrationRuns.Play | kernel/net/migration.c:96-416 | two endpoint objects played through any moves end as the run of the protocol says; so no component is runnable at both and none is imported twice |
| MigrationRuns.Turn | kernel/net/migration.c:96-416 | one event at an endpoint object: its state and all it ever sent are those of the step, and a stopped endpoint does nothing until it is reopened |
| MigrationNodes.MigrationNode.Begin | kernel/net/migration.c:140-199 | does to the endpoint and its store exactly what the step function says, and reports success exactly if a bundle was made and the node is not in doubt |
| MigrationNodes.MigrationNode.ResumeSource | kernel/net/migration.c:130-139 | rebuilds the source endpoint from the fence exactly as the step function says, and reports success exactly then |
| MigrationNodes.MigrationNode.PublishImport | kernel/net/migration.c:200-242 | imports exactly when allowed, with the outcome the step function says; the new component is the fenced one under its new root, slot by slot |
| MigrationNodes.MigrationNode.Hear | kernel/net/migration.c:315-382 | one incoming message has exactly the effect and the reply of the step function |
| MigrationNodes.MigrationNode.PostLetter | kernel/net/migration.c:398-416 | queues a letter exactly when the outbox is free and the letter fits |
| MigrationNodes.MigrationNode.AttachTarget | kernel/net/migration.c:383-390 | attaches exactly a runnable import, and reports success exactly then |
| MigrationNodes.SearchReceipts | kernel/net/migration.c:80-91 | finds the receipt for a bundle exactly if there is one |
| CapabilityDomains.CapabilityDomain.Revoke | kernel/cap/domain.c:337-373 | removes exactly the slot and all its descendants in every component, strips exactly those slots from queued letters, keeps the other edges, slots and payloads, fails exactly if a fence is in the way, and then changes nothing |
| CapabilityDomains.CapabilityDomain.Derive | kernel/cap/domain.c:254-272 | done, exactly one new slot holds the same object with exactly the rights and badge asked for, below its source; forbidden exactly if the source is empty or may not grant, the rights are improper or not all its own, or no slot is left; full only if the forest is; no failure changes anything |
| CapabilityDomains.CapabilityDomain.Send | kernel/cap/domain.c:289-335 | a letter and its capability arrive together or not at all, exactly when destination, rights, slots, forest and mailbox allow; the capability arrives with the same object and exactly the rights and badge asked for |
| CapabilityDomains.CapabilityDomain.Enclose | kernel/cap/domain.c:289-335 | the capability of a letter gets a slot of the recipient and an edge below its source, with the rights and badge asked for; otherwise nothing changes |
| CapabilityDomains.CapabilityDomain.Begin | kernel/cap/domain.c:110-125 | opens a transaction exactly when none is open and the domain is not halted, with nothing to write yet |
| CapabilityDomains.CapabilityDomain.Abort | kernel/cap/domain.c:135-143 | every table, mailbox and edge is back as before the transaction |
| CapabilityDomains.CapabilityDomain.Commit | kernel/cap/domain.c:189-252 | refused if an edge touches a fence, memory is short or the batch is too large, committed if there is nothing to write, and otherwise exactly what the store reports; committed, the store holds exactly what memory holds; otherwise memory is back, and an uncertain outcome halts the domain with the batch on disk or not |
| CapabilityDomains.CapabilityDomain.StageWrite | kernel/cap/domain.c:150-168 | a staged write replaces the earlier one of that object |
| CapabilityDomains.CapabilityDomain.Read | kernel/cap/domain.c:170-187 | reads see the staged writes over the stored objects |
| CapabilityDomains.GraphMatches | kernel/cap/domain.c:52-73 | accepts exactly the domains whose tables are valid and agree with the forest |
| CapabilityDomains.OnlyFencesDisagree | kernel/cap/domain.c:52-73 | in a well-formed domain agreement fails exactly when an edge touches a fenced component |
| DomainRuns.Serve | kernel/cap/domain.c:110-373 | after any calls in any order the domain is well-formed, rights only shrink along every chain, and no committed reference was ever reused |
| DomainUpgrade.Open | kernel/cap/domain.c:75-108 | opens exactly the domains that agree; without a stored forest one is made of the local links, which fails only for a malformed table, a fence or the store |
| DomainUpgrade.ScannedForest | kernel/cap/domain.c:88-96 | local links of valid tables are always a forest |
| Domains.RightsShrink | kernel/cap/domain.c:52-73 | every ancestor has the same object and all the rights, and may grant |
| Domains.GrantKeeps | kernel/cap/domain.c:289-335 | granting into a free slot keeps local links, forest, tables and attachments in agreement |
| Domains.SweepKeeps | kernel/cap/domain.c:337-373 | removing a closed set of capabilities keeps them in agreement |
| Domains.SweptLookup | kernel/cap/domain.c:337-373 | exactly the removed references stop denoting something |
| Domains.GrantedLookup | kernel/cap/domain.c:254-335 | a grant makes one reference denote something and changes no other |
| Domains.ReferenceIsForever | kernel/cap/domain.c:41-50 | across successive states a reference never denotes two capabilities, and a dead one stays dead |
| Domains.MailKeeps | kernel/cap/domain.c:289-335 | queueing a letter with a live attachment keeps the domain well-formed |
| Derivations.DerivationTable.IsValid | kernel/cap/derivation.c:82-141 | the bounded walks accept exactly the forests, zero behind the last edge |
| Derivations.DerivationTable.Add | kernel/cap/derivation.c:143-172 | adds the edge exactly if a forest results; a rejected edge leaves the table as it was |
| Derivations.DerivationTable.Parent | kernel/cap/derivation.c:174-190 | the parent of a reference in a valid table |
| Derivations.DerivationTable.RemoveSubtree | kernel/cap/derivation.c:208-293 | removes exactly the edges to descendants, in order, or nothing if they do not fit |
| Derivations.DerivationTable.Descendants | kernel/cap/derivation.c:229-257 | the fixpoint lists exactly the descendants, each once |
| Derivations.LongWalkIsCycle | kernel/cap/derivation.c:121-138 | a walk longer than the table repeats a reference |
| Derivations.KeptForest | kernel/cap/derivation.c:265-293 | pruning a forest leaves a forest |
| Derivations.Unhook | kernel/cap/domain.c:349-356 | takes out exactly the edge leading to one reference |
| CapTables.IsValid | kernel/cap/cap_table.c:196-257 | accepts exactly the well-formed tables |
| CapTables.ChainOk | kernel/cap/cap_table.c:221-254 | a walk of sixteen links decides whether a chain ends |
| CapTables.CapTable.ClaimSlot | kernel/cap/cap_table.c:7-33 | claims the first free slot that is not worn out and advances its generation |
| CapTables.CapTable.InsertRoot | kernel/cap/cap_table.c:48-72 | inserts a root exactly if its object, its rights and a free slot are there; the slot holds exactly it |
| CapTables.CapTable.Derive | kernel/cap/cap_table.c:102-135 | refused exactly if the source is empty, may not grant, or the rights are improper or not all its own, or every slot is taken or worn out; otherwise exactly one slot changes, to the same object with exactly the rights and badge asked for |
| CapTables.CapTable.Revoke | kernel/cap/cap_table.c:137-170 | empties exactly the slot and everything below it |
| CapTables.PlacedOk | kernel/cap/cap_table.c:102-135 | filling a free slot below a granting one keeps the table well-formed |
| CapTables.ClearedOk | kernel/cap/cap_table.c:137-170 | clearing a closed set of slots keeps the table well-formed |
| CapTables.Derived | kernel/cap/capability.c:41-69 | a derived capability has the same object, no right its parent lacks, and a parent that may grant |
| CapTables.DerivedExactly | kernel/cap/capability.c:41-69 | exactly when a capability can be derived from a slot, in terms of the bits of its rights, and which one it is |
| CapTables.WithinIsTransitive | kernel/cap/capability.c:25-39 | containment of rights is transitive |
| Mailboxes.Validate | kernel/wasm/mailbox_validate.zig:22-37 | accepts exactly the byte strings that are a sequence of letters with proper slots |
| Mailboxes.Mailbox.Push | kernel/wasm/component.c:355-387 | appends the letter exactly if it fits |
| Mailboxes.Mailbox.Pop | kernel/wasm/component.c:389-433 | takes the oldest letter exactly if the caller has room |
| Mailboxes.Mailbox.Strip | kernel/cap/domain.c:9-26 | removes one slot from all letters and keeps their framing and payloads |
| Mailboxes.BytesAreInjective | kernel/wasm/component.c:355-433 | the bytes of a mailbox determine its letters |
| Mailboxes.LettersOf | kernel/wasm/component.c:355-433 | letters are read back exactly as they were written |
| PageTables.MemoryManager.Map | kernel/mm/vmm.c:225-250 | adds exactly one binding with exactly the access asked for, exactly when the arguments are proper, the page is unbound, no huge page is in the way and frames suffice; a failed call changes no translation; what the walk does to the access of every page is stated exactly, the page itself gaining what was asked as far as its entry allows; where no walk holds anything back no access changes, and that is kept; if no page is writable and executable, none becomes so |
| PageTables.MemoryManager.Unmap | kernel/mm/vmm.c:264-281 | removes exactly one binding and returns its frame, or changes nothing; access to every other page stays, and walks that hold nothing back still do not |
| PageTables.MemoryManager.Translate | kernel/mm/vmm.c:252-262 | the frame and offset of a mapped address, 0 otherwise |
| PageTables.MemoryManager.FindOrCreate | kernel/mm/vmm.c:186-219 | reaches the last-level table exactly when the missing tables can be created, and changes no translation |
| PageTables.MemoryManager.GetOrCreate | kernel/mm/vmm.c:150-184 | follows or creates one table; every existing translation stays |
| PageTables.MemoryManager.Hang | kernel/mm/vmm.c:150-184 | a fresh table in an empty entry keeps the tree and every translation |
| PageTables.IndicesDetermine | kernel/mm/vmm.c:54-79 | a canonical page is determined by its four indices |
| PageTables.OnePagePerEntry | kernel/mm/vmm.c:186-219 | two pages share a leaf entry only if they are the same page |
| PageTables.WriteRebinds | kernel/mm/vmm.c:225-281 | writing a leaf entry rebinds that page and no other |
| PageTables.WriteKeepsAccess | kernel/mm/vmm.c:225-281 | writing a leaf gives its page what entry and walk allow together and leaves access to every other page alone |
| PageTables.FullExactly | kernel/mm/vmm.c:150-184 | no walk can widen the access of any page exactly if no walk holds back what the entry of its page allows |
| PageTables.RefusedMapWidens | kernel/mm/vmm.c:150-250 | a concrete tree in which a refused call lets users read what they could not |
| PageTables.HungRead | kernel/mm/vmm.c:150-184 | a fresh table in an empty entry changes no translation |
| Frames.FrameAllocator.constructor | kernel/mm/pmm.c:84-99 | exactly the frames wholly inside usable memory are free, except frame 0 |
| Frames.FrameAllocator.Release | kernel/mm/pmm.c:60-82 | frees exactly the frames wholly inside the region |
| Frames.FrameAllocator.Allocate | kernel/mm/pmm.c:120-130 | hands out the next frame nobody holds, going around from the last one; fails exactly when none is free; the count stays exact |
| Frames.FrameAllocator.Free | kernel/mm/pmm.c:132-151 | frees exactly a held frame and ignores everything else; the search starts no later than there |
| Heaps.Heap.Malloc | kernel/mm/heap.c:62-108 | fails exactly when no free block fits and the region cannot grow; otherwise one new live block, a fresh one no larger than alignment and header require, and no other block changes |
| Heaps.Heap.Free | kernel/mm/heap.c:110-128 | a live block becomes free; freeing a block that is free already changes nothing |
| Heaps.Heap.Realloc | kernel/mm/heap.c:130-171 | the bytes go along, no other live block changes; fails exactly for size 0, a block that is not live, or when the block is too small and no other can be had, and then changes nothing |
| Heaps.Heap.Take | kernel/mm/free_list.c:59-90 | unlinks a free block that is big enough; none exactly when no free block is |
| Heaps.Heap.TakeFrom | kernel/mm/free_list.c:59-90 | unlinks the first block of a list that is big enough |
| Heaps.Heap.Link | kernel/mm/free_list.c:40-57 | puts a block in front of the list of its size class |
| Heaps.Heap.LinkIsNoMark | kernel/mm/heap.c:110-128 | a link in a free block is never mistaken for the mark of a live one |
| Heaps.Heap.constructor | kernel/mm/heap.c:43-60 | a heap without blocks, or none at all for an improper region |
| Heaps.ClassFor | kernel/mm/free_list.c:17-28 | the one class whose limits enclose the size |
| Heaps.SmallerClass | kernel/mm/free_list.c:59-90 | no block of a smaller class is big enough, so starting at the class of the size loses nothing |
| Heaps.BlocksApart | kernel/mm/heap.c:62-108 | blocks tile the region: two blocks share no byte |
| Heaps.BlockSize | kernel/mm/heap.c:26-41 | the least aligned size that holds the payload and its header, or nothing if it overflows |
| Schedules.Drive | kernel/sched/scheduler.c:95-181 | a run of ticks: at each one the choice, the handler and the charge follow from the plan before it, and the plan after the last is the one left behind |
| Schedules.ReservationHolds | kernel/sched/scheduler.c:95-181 | in every such run with handlers within budget, the cycles promised to interactive components are there at every tick |
| Schedules.InteractiveServed | kernel/sched/scheduler.c:95-181 | in every such run with handlers within budget, a runnable interactive component with budget left is eligible, and whoever runs instead is interactive too |
| Schedules.WaitingEnds | kernel/sched/scheduler.c:95-181 | in every such run whoever stays eligible while no interactive component is runs within 64 plus COMPONENT_MAX ticks |
| Schedules.SteppedMeans | kernel/sched/scheduler.c:95-181 | every step of every run is right in that sense, in terms of policies, budgets and waiting times alone |
| Schedules.PrioritiesMean | kernel/sched/scheduler.c:104-119 | of two that could run, the higher priority goes first at equal waiting time, the longer waiting at equal priority, and one step of priority beats less than eight ticks of waiting |
| Schedules.Scheduler.Step | kernel/sched/scheduler.c:95-181 | nobody runs exactly if nobody can; whoever runs could, and no one who could precedes it: interactive before not, then by eight times the priority plus the time waited up to 64; its cycles are charged; a failed handler leaves its memory as it was, zeros where it grew, and its component exited |
| Schedules.Scheduler.Configure | kernel/sched/scheduler.c:35-48 | accepts a policy exactly when all interactive budgets together fit the frame |
| Schedules.Select | kernel/sched/scheduler.c:104-119 | picks one that could run and that no other precedes, the first in rotation among equals; nothing exactly if nothing is eligible |
| Schedules.CoveredExactly | kernel/sched/scheduler.c:149-151 | how far a handler may run without eating into what interactive components were promised |
| Schedules.WithinBudgetCovered | kernel/sched/scheduler.c:149-151 | a handler within its remaining budget keeps the frame covered |
| Schedules.InteractiveEligible | kernel/sched/scheduler.c:104-116 | in a covered frame an interactive component with budget left is always eligible |
| Schedules.InteractiveFirst | kernel/sched/scheduler.c:117-119 | it is never passed over for one that is not interactive |
| Schedules.ReconfiguredExactly | kernel/sched/scheduler.c:35-48 | a change of policy within a frame keeps it covered exactly if the slack pays for it |
| Schedules.LatePromiseBreaks | kernel/sched/scheduler.c:35-181 | from a new scheduler two policies and two ticks lead to an interactive component that has had 40 of the 50 cycles promised and cannot run for the rest of the frame |
| Schedules.BoundedWaiting | kernel/sched/scheduler.c:109-119 | a component that stays eligible is chosen within 64 plus COMPONENT_MAX ticks, whatever the priorities |
| Schedules.BestIsUnique | kernel/sched/scheduler.c:109-119 | the choice is determined |
| Replays.RecordThenVerify | kernel/replay/record.c:12-161 | for every deterministic handler program and every kernel answering it: recording succeeds exactly when the live run stops within its calls and its log fits, the log holds exactly the given stimuli with one handler each, and it verifies |
| Replays.Session.Verify | kernel/replay/record.c:106-161 | succeeds exactly when the log is a complete run of the program from the initial to the expected memory, with the cursor at the end |
| Replays.Session.Before | kernel/replay/record.c:43-71 | while playing, a call is answered from the log exactly if it is the recorded one in kind, arguments, sizes and input; the first other call fails the session for good |
| Replays.Session.After | kernel/replay/record.c:73-96 | appends the call exactly if it fits the log |
| Replays.Session.RecordHandler | kernel/replay/record.c:98-104 | the recorded handler is the live one: its stimulus, its calls and its memory; recording fails exactly when the live run exceeds its bounds or traps |
| Replays.Session.RecordRun | kernel/replay/record.c:12-104 | the same for a series of handlers |
| Replays.Session.PlayHandler | kernel/replay/record.c:127-145 | playing ends in the recorded memory, or no recorded run starts here |
| Replays.Session.PlayNext | kernel/replay/record.c:127-145 | one handler is played, or none could have been |
| Replays.RunsOnce | kernel/replay/record.c:106-161 | a log and an initial memory determine the final memory |
| Replays.HeaderRoundTrip | kernel/replay/record.c:81-95 | a record header is read back field by field |
| Replays.EventAt | kernel/replay/record.c:54-66 | the bytes at the cursor are the record the position stands for |
| ReplicaTheorems.GrantAgreement | kernel/net/replica.c:212-233 | in every reachable state what a peer believes it was granted the owner granted in that very epoch, no later than now; equal epochs mean equal rights |
| ReplicaTheorems.MergedUnderGrant | kernel/net/replica.c:234-266 | a message changes an object only under the grant in force, and was sent by a node that grant allowed |
| ReplicaTheorems.WithdrawalIsFinal | kernel/net/replica.c:132-143 | once the right to write is withdrawn nothing in flight and nothing the peer does changes the object until its owner acts |
| ReplicaTheorems.MergeRefusedExactly | kernel/net/crdt.zig:97-128 | in every reachable state a merge is refused exactly when the set would exceed its capacity |
| ReplicaTheorems.ExchangeConverges | kernel/net/replica.c:243-266 | one exchange each way without edits: each side whose rights let it take changes ends with the merge of both; with both rights they end equal exactly if the states can be merged, otherwise neither changes |
| ReplicaTheorems.HearingAgain | kernel/net/replica.c:212-266 | a message heard twice has no more effect than once |
| ReplicaTheorems.CatalogsFit | kernel/net/replica.c:119-233 | no run makes a catalog outgrow its eight entries |
| ReplicaTheorems.SharePrompts | kernel/net/replica.c:132-211 | rights that change go out with the very next packet |
| ReplicaTheorems.ReopenPrompts | kernel/net/replica.c:185-211 | after a restart the first grant in the catalog goes out before anything else |
| ReplicaProgress.ReplicasCanMerge | kernel/net/replica.c:185-266 | from every reachable state packets alone can bring both sides of a shared object to the merge, as far as rights 1, 2 or 3 let each take it; only two sets with more dots than one may hold stand in the way |
| ReplicaProgress.SaysEverything | kernel/net/replica.c:185-211 | whatever a node has to say at any place of its rotation it says after enough packets |
| ReplicaProgress.GrantComesIntoForce | kernel/net/replica.c:185-233 | from every reachable state the current grant can be brought into force at the peer |
| ReplicaProgress.NeverMeet | kernel/net/replica.c:185-266 | from every reachable state in which two sets have more dots together than one may hold, no run makes the two sides equal, whatever is edited, granted, lost, repeated or restarted |
| ReplicaProgress.RunRises | kernel/net/replica.c:88-266 | in every run a node never takes a step back: a dot it has stays, a dot removed stays removed, no older write replaces a later one |
| ReplicaProgress.RemovedStays | kernel/net/replica.c:88-266 | what a node removed from a set stays removed there in every run |
| ReplicaProgress.CanMeetExactly | kernel/net/replica.c:132-266 | in every reachable state some run brings the two sides of an object together exactly if they are not two sets with more dots together than one may hold |
| ReplicaProgress.NeitherMoves | kernel/net/replica.c:185-266 | if besides every update under way is current, no run without an edit of the object changes either side |
| ReplicaProgress.ApartHappens | kernel/net/crdt.zig:97-128 | runs from two empty stores reach two sets that can never meet |
| ReplicaSafety.RunIsSafe | kernel/net/replica.c:88-266 | every event at either node, with loss, repetition, reordering and uncertain commits, keeps the invariant |
| ReplicaRuns.PlayAll | kernel/net/replica.c:88-266 | two endpoint objects played through any turns end as the run says; so neither ever holds a grant its owner did not give, nor other rights in the same epoch |
| ReplicaNodes.Replica.Publish | kernel/net/replica.c:50-87 | does exactly what the step function says; the rotation restarts at the first changed scope |
| ReplicaNodes.Replica.Create | kernel/net/replica.c:119-131 | creates exactly a fresh object of a known kind |
| ReplicaNodes.Replica.Share | kernel/net/replica.c:132-143 | raises the epoch exactly when the rights change; succeeds exactly for an owned scope whose rights are already so or whose next epoch is written |
| ReplicaNodes.Replica.AcceptGrant | kernel/net/replica.c:212-233 | takes exactly a grant of the peer for a new object with room, or of a later epoch for a known one; the same grant again is fine |
| ReplicaNodes.Replica.Change | kernel/net/replica.c:150-162 | edits exactly with ownership or the right to write |
| ReplicaNodes.Replica.NextPacket | kernel/net/replica.c:185-211 | the next grant or summary of the rotation |
| ReplicaNodes.SilentExactly | kernel/net/replica.c:185-211 | a node is silent only if no scope has anything to say in either round |
| Crdts.MergeCommutes | kernel/net/crdt.zig:97-128 | merging is commutative, refusals included |
| Crdts.MergeAssociates | kernel/net/crdt.zig:97-128 | merging is associative wherever the first merges succeed |
| Crdts.MergeIsIdempotent | kernel/net/crdt.zig:97-128 | merging a valid state with itself gives that state |
| Crdts.MergeAbsorbs | kernel/net/crdt.zig:97-128 | merging back what already contains a state changes nothing |
| Crdts.MergeExactly | kernel/net/crdt.zig:97-128 | states of one history merge exactly unless the set would be too large |
| Crdts.MergeMeans | kernel/net/crdt.zig:97-128 | of two sets exactly the dots of either, removed exactly if either removed them; of two registers the later write, at one time that of the higher node; the vector is the larger of both in each place |
| Crdts.EditedMeans | kernel/net/crdt.zig:51-96 | setting leaves exactly that value, adding one more live dot of that item, removing no live dot of that item; all else is as it was |
| Crdts.EditsOfSets | kernel/net/crdt.zig:51-96 | so sets behave as sets: after an edit exactly the items added or kept are in |
| Crdts.EditedExactly | kernel/net/crdt.zig:51-96 | exactly when an edit is refused |
| Crdts.EditIsFresh | kernel/net/crdt.zig:51-96 | an edit writes under a tag never used before |
| Sorting.Introsort | kernel/wasm/shim/stdlib.c:297-327 | for every total preorder the range ends up ordered and a rearrangement of what it was; calls nest no deeper than the logarithm of the length, which is the termination measure, and all ranges partitioned together are no longer than the length times the depth limit |
| Sorting.QuickSort | kernel/wasm/shim/stdlib.c:329-337 | the whole array is ordered and has the same elements, calls nesting no deeper than the logarithm of its length, and partitioning scans at most twice the length times that logarithm |
| Sorting.HeapSort | kernel/wasm/shim/stdlib.c:221-241 | the range is ordered and rearranged |
| Sorting.SiftDown | kernel/wasm/shim/stdlib.c:199-219 | restores the heap from one position on |
| Sorting.BuildHeap | kernel/wasm/shim/stdlib.c:228-233 | makes the range a heap |
| Sorting.InsertionSort | kernel/wasm/shim/stdlib.c:181-197 | the range is ordered and rearranged |
| Sorting.Partition | kernel/wasm/shim/stdlib.c:250-280 | everything before the returned position is smaller than it, nothing after it is |
| Sorting.MedianLast | kernel/wasm/shim/stdlib.c:250-265 | rearranges the range so that the last element is the median of three |
| Sorting.DepthLimit | kernel/wasm/shim/stdlib.c:282-295 | twice the logarithm of the count, rounded down |
| Sorting.RootIsLargest | kernel/wasm/shim/stdlib.c:221-241 | the root of a heap is its largest element |

## Left out

- Checksums and the byte layout of superblocks, table entries, the log record, registries and catalogs: sectors and objects hold abstract records, decoding undoes encoding.
- Failing reads: reads of sectors succeed; a failed collection, which would leave a partly rebuilt bitmap, is outside the theorems.
- Crashes in the middle of formatting: the code does not promise anything about them.
- Wrap-around of the superblock sequence, of the cache clock and of logical times at 2^64: these counters are unbounded in the model.
- Bitmap bytes: the allocation bitmaps of the store and of the frames are sequences of booleans.
- Sessions and cryptography: a channel delivers only what the peer sent; digests are injective.
- Eventual completion of a migration under a fair network: that it can always be completed is stated, not that it is.
- Loading failures of a receipt or a record that is in the store, and the refusal of a migration while a capability transaction is open.
- Reading back the trace ring, the trace record stored with each handler, provenance records, and the use counters of components.
- The count of used slots a component keeps beside its table (`capability_count`): it only bounds scans.
- Uninstalling a component: a loop over revocation followed by removal.
- Memory failures of the allocator calls inside commit, migration and scheduling, beyond one flag per call that says whether memory sufficed.
- The boot memory map, the page tables of the boot loader, HHDM set-up and TLB invalidation: parameters or absent.
- Accessed and dirty bits of page entries: hardware sets them, the code does not look at them.
- Writes past the end of a heap block: header words and payload bytes are kept apart.
- Syscall wrappers, the WASM runtime, drivers, UI, formatting, and the IDL compiler.
- Saving and loading a replay session: four objects in one batch, with the fidelity of the batch.
- The order of a set's dots in memory: a set is a map from tags to dots.
- Heaps.Heap.constructor: the region is required to consist of canonical addresses, since no other page can be mapped; the mark of a live block is not a canonical address.
- PageTables.MemoryManager.constructor: the tree handed over is required to be a tree whose frames the allocator does not offer.
- ObjectStores.ObjectStore.PutMany: the candidate table is built with the places already assigned; the code enters provisional entries first and replaces them.
- ObjectStores.ObjectStore.Mount: after a failed mount the model's store stays quarantined, where the code leaves the caller's structure unspecified.
- Schedules.Scheduler.Step: which components are runnable and whether a handler commits are inputs; the transaction it runs in is modelled in `CapabilityDomains`.
- Replays.RecordThenVerify: a handler is cut off after a given number of calls, so that recording ends; the number is arbitrary.
- ReplicaNodes.Replica.NextPacket: sealing a packet always succeeds.
- StoreRuns.Run: pruning is not an operation of its own in a run; it is a series of discards followed by a collection (`SnapshotPrune`).
- CapabilityDomains.CapabilityDomain.Commit: the set of fenced components is fixed for the life of a domain object; a fence that appears while it is open is not modelled.
- MigrationProgress.DepartureCanComplete: room at the target is taken as given; that another component could leave to make room is not stated.
- ReplicaProgress.CanMeetExactly: the owner's epoch must not be exhausted unless it grants everything already, and the peer must hold the object or have a free entry for it.
- CacheReturns.MuddleShows: the object must fit the transfer buffer and the arena, without which it is never cached.
