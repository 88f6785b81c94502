/** Two histories in which the cache is not what one would expect, and exactly when they occur. */
module CacheFailures {
  import opened ObjectIds
  import opened ObjectTables
  import opened Layout
  import opened BlockDevice
  import opened Recovery
  import opened Bitmap
  import opened Requests
  import opened Generations
  import opened ObjectStores
  import opened Cache
  import opened CachedStores
  import opened CacheRuns
  import opened Rooms

  /** In service, and nothing was rolled back since the cache was empty. */
  ghost predicate Serves(cs: CachedStore)
    reads cs, cs.store, cs.store.device, cs.store.allocator.bits, cs.cache, cs.cache.arena
  {
    cs.Valid() && !cs.store.recoveryRequired && cs.Unrolled()
  }

  // ---- Rollback ----------------------------------------------------------------------------------

  /** The version a put over `base` would assign is cached with that put's bytes. */
  ghost predicate CachedOver(cs: CachedStore, base: Generation, r: PutRequest)
    requires InArena(cs.cache.slots, cs.cache.arena[..])
    reads cs, cs.cache, cs.cache.arena
  {
    && !IsZero(r.id) && !IsZero(r.typeId)
    && cs.Caches(r.id, NextVersion(base.entries, r.id), CellsFor(r, NextVersion(base.entries, r.id)))
  }

  /** Sectors, entries, versions and generations enough for two single puts and a batch of two. */
  ghost predicate Ample(cs: CachedStore, first: PutRequest, second: PutRequest, third: PutRequest, other: PutRequest)
    reads cs, cs.store, cs.store.allocator.bits, cs.cache
  {
    var n := |cs.store.table| + 3;
    && Acceptable([first], cs.store.cacheCapacity) && Acceptable([second], cs.store.cacheCapacity)
    && Acceptable([third, other], cs.store.cacheCapacity)
    && n <= cs.store.capacity && cs.store.generation + 5 <= UINT64_MAX && Versions(cs.store.table, 2)
    && Roomy(cs.store.allocator.Bits(), ObjectSectors([first]) + ObjectSectors([second]) + ObjectSectors([third, other]) + 3 * n)
  }

  /** A snapshot can be taken after one more put, and an object of this size can be cached. */
  ghost predicate Keepable(cs: CachedStore, second: PutRequest)
    reads cs, cs.store, cs.cache
  {
    Nameable(cs.store.snapshots, cs.store.generation + 2) && Span(HEADER_SIZE + |second.payload|) <= cs.cache.arena.Length
  }

  /** There is a free place for a snapshot of this name. */
  ghost predicate Nameable(snapshots: seq<Snapshot>, id: nat) {
    && (exists i :: 0 <= i < |snapshots| && snapshots[i].id == 0)
    && (forall i :: 0 <= i < |snapshots| ==> snapshots[i].id != id)
  }

  /** The store holds this snapshot of this generation. */
  ghost predicate Remembers(store: ObjectStore, id: nat, g: Generation)
    reads store
  {
    SnapshotsHeld(store.snapshots, store.held) && id in store.Archive() && store.Archive()[id] == g
  }

  ghost function Archived(store: ObjectStore): Archive
    reads store
  {
    if SnapshotsHeld(store.snapshots, store.held) then store.Archive() else map[]
  }

  /** Snapshots stay what they are. */
  ghost predicate Extends(archive: Archive, after: Archive) {
    forall k :: k in archive ==> k in after && after[k] == archive[k]
  }

  /** Room for one batch over `table`, with `sectors` to spare. */
  ghost predicate Fits(store: ObjectStore, table: seq<Entry>, requests: seq<PutRequest>, generations: nat, puts: nat, sectors: nat)
    reads store, store.allocator.bits
  {
    && Acceptable(requests, store.cacheCapacity) && generations > 0 && store.generation + generations <= UINT64_MAX
    && |table| + |requests| <= store.capacity && Versions(table, puts)
    && Roomy(store.allocator.Bits(), ObjectSectors(requests) + |table| + |requests| + sectors)
  }

  /** A put that fits commits unless the device fails, and leaves what it did not need. */
  method PutFitting(cs: CachedStore, requests: seq<PutRequest>, ghost generations: nat, ghost puts: nat, ghost sectors: nat)
    returns (result: BatchResult, ghost post: Generation)
    requires cs.Valid() && !cs.store.recoveryRequired
    modifies cs.store, cs.store.device, cs.store.allocator.bits, cs.cache, cs.cache.arena
    ensures cs.Valid() && old(cs.store.device.history) <= cs.store.device.history && cs.store.snapshots == old(cs.store.snapshots)
    ensures old(Fits(cs.store, cs.store.table, requests, generations, puts, sectors)) ==>
              !cs.store.device.FaultedSince(old(|cs.store.device.history|)) ==> result.Committed?
    ensures result.Committed? && old(Fits(cs.store, cs.store.table, requests, generations, puts + 1, sectors)) ==>
              && cs.store.generation + generations - 1 <= UINT64_MAX && Versions(cs.store.table, puts)
              && |cs.store.table| <= |old(cs.store.table)| + |requests| && Roomy(cs.store.allocator.Bits(), sectors)
    ensures result.Committed? ==>
              && !cs.store.recoveryRequired && cs.store.generation == old(cs.store.generation) + 1
              && cs.store.Here() in cs.store.held && cs.store.Current() == post && cs.store.table == post.entries
              && old(cs.store.Here() in cs.store.held) && PutOutcome(old(cs.store.Current()), requests, post)
              && SnapshotsHeld(cs.store.snapshots, cs.store.held) && old(SnapshotsHeld(cs.store.snapshots, cs.store.held))
              && cs.store.Archive() == old(cs.store.Archive())
              && (forall i :: 0 <= i < |requests| ==> !IsZero(requests[i].id) && !IsZero(requests[i].typeId))
              && (|requests| != 1 ==> cs.cache.Entries() == old(cs.cache.Entries())) && (old(cs.Unrolled()) ==> cs.Unrolled())
              && (cs.Refreshes(requests) ==>
                    var r, version := requests[0], NextVersion(old(cs.store.table), requests[0].id);
                    cs.Caches(r.id, version, CellsFor(r, version)))
  {
    hide Lookup, PutOutcome, CrashTail, ArchivesOf, SnapshotsHeld, Collides, ArchiveOf, InArena, Coherent, Behind, CellsFor, Stageable,
         Find, Sorted, AllFit, FitAll, Needs, StageAll, MergeAll, EntriesOf, Roomy, Versions, ObjectSectors, NextVersion, Acceptable;
    hide ObjectStore.Valid, CachedStore.Truthful, CachedStore.Caches, CachedStore.Unrolled, ObjectStore.Admissible;
    cs.Known();
    ghost var pre := cs.store.Current();
    if Fits(cs.store, cs.store.table, requests, generations, puts, sectors) {
      FewerVersions(cs.store.table, puts, 0);
      RoomAdmits(cs.store, requests, sectors);
    }
    if Fits(cs.store, cs.store.table, requests, generations, puts + 1, sectors) {
      FewerVersions(cs.store.table, puts + 1, 0);
      RoomAdmits(cs.store, requests, sectors);
    }
    ghost var fits := Fits(cs.store, cs.store.table, requests, generations, puts + 1, sectors);
    result, post := cs.Put(requests);
    if result.Committed? {
      cs.Known();
      if fits {
        VersionsAfter(pre, requests, post, puts);
      }
    }
  }

  method SnapshotKeepingCache(cs: CachedStore) returns (ok: bool, id: nat)
    requires cs.Valid() && !cs.store.recoveryRequired && cs.store.Here() in cs.store.held
    modifies cs.store, cs.store.device
    ensures cs.Valid() && !cs.store.recoveryRequired && old(cs.store.device.history) <= cs.store.device.history
    ensures cs.store.Here() in cs.store.held && cs.store.table == cs.store.Current().entries && cs.store.table == old(cs.store.table)
    ensures cs.store.Current() == old(cs.store.Current())
    ensures ok ==> cs.store.generation == old(cs.store.generation) + 1 == id && Remembers(cs.store, id, cs.store.Current())
    ensures ok ==> Added(old(cs.store.snapshots), cs.store.snapshots, id) && Extends(old(Archived(cs.store)), Archived(cs.store))
    ensures old(cs.store.Snapshotable()) ==> !cs.store.device.FaultedSince(old(|cs.store.device.history|)) ==> ok
  {
    hide CrashTail, ArchivesOf, SnapshotsHeld, ArchiveOf;
    hide ObjectStore.Valid;
    cs.Known();
    ok, id := cs.store.SnapshotCreate();
    cs.Known();
  }

  lemma TakesFirst(cs: CachedStore, first: PutRequest, second: PutRequest, third: PutRequest, other: PutRequest)
    requires Ample(cs, first, second, third, other)
    ensures var n := |cs.store.table| + 3;
            Fits(cs.store, cs.store.table, [first], 5, 2, ObjectSectors([second]) + ObjectSectors([third, other]) + 2 * n)
  {
    hide Roomy, Versions, ObjectSectors, Acceptable;
    var n := |cs.store.table| + 3;
    LessRoom(cs.store.allocator.Bits(), ObjectSectors([first]) + ObjectSectors([second]) + ObjectSectors([third, other]) + 3 * n,
             ObjectSectors([first]) + |cs.store.table| + |[first]| + (ObjectSectors([second]) + ObjectSectors([third, other]) + 2 * n));
  }

  lemma HasEntries(pre: Generation, r: PutRequest, post: Generation)
    requires PutOutcome(pre, [r], post)
    ensures post.entries != []
  {
    assert [r][0] == r;
    assert Lookup(post, [r][0].id).Some?;
  }

  /** The store serves what this snapshot names. */
  ghost predicate Snapped(store: ObjectStore, id: nat)
    reads store
  {
    && !store.recoveryRequired && store.Here() in store.held
    && store.table == store.Current().entries && Remembers(store, id, store.Current())
  }

  ghost predicate Left(store: ObjectStore, generation: nat, entries: nat, puts: nat, sectors: nat)
    reads store, store.allocator.bits
  {
    && store.generation == generation && |store.table| <= entries
    && Versions(store.table, puts) && Roomy(store.allocator.Bits(), sectors)
  }

  ghost predicate FitsOne(store: ObjectStore, r: PutRequest, generations: nat, puts: nat, sectors: nat)
    reads store, store.allocator.bits
  {
    Fits(store, store.table, [r], generations, puts, sectors)
  }

  /** A write and a snapshot of it. */
  method WriteAndSnap(cs: CachedStore, first: PutRequest, ghost generations: nat, ghost puts: nat, ghost sectors: nat)
    returns (ok: bool, id: nat)
    requires cs.Valid() && !cs.store.recoveryRequired && generations > 1
    modifies cs.store, cs.store.device, cs.store.allocator.bits, cs.cache, cs.cache.arena
    ensures cs.Valid() && old(cs.store.device.history) <= cs.store.device.history
    ensures ok ==> Snapped(cs.store, id)
    ensures ok ==> Added(old(cs.store.snapshots), cs.store.snapshots, id) && Extends(old(Archived(cs.store)), Archived(cs.store))
    ensures ok ==> id == old(cs.store.generation) + 2 == cs.store.generation
    ensures ok ==> !IsZero(first.id) && !IsZero(first.typeId)
                   && old(cs.store.Here() in cs.store.held) && PutOutcome(old(cs.store.Current()), [first], cs.store.Current())
    ensures old(FitsOne(cs.store, first, generations, puts + 1, sectors)) ==>
              && (ok ==> Left(cs.store, old(cs.store.generation) + 2, old(|cs.store.table|) + 1, puts, sectors))
              && (old(Nameable(cs.store.snapshots, cs.store.generation + 2)) ==>
                    !cs.store.device.FaultedSince(old(|cs.store.device.history|)) ==> ok)
  {
    hide Lookup, PutOutcome, CrashTail, ArchivesOf, SnapshotsHeld, ArchiveOf, InArena, CellsFor, Roomy, Versions, ObjectSectors, Acceptable,
         NextVersion;
    hide ObjectStore.Valid, CachedStore.Caches, CachedStore.Valid, CachedStore.Unrolled;
    ok, id := false, 0;
    if FitsOne(cs.store, first, generations, puts + 1, sectors) {
      FewerVersions(cs.store.table, puts + 1, puts);
    }
    var result;
    ghost var post;
    result, post := PutFitting(cs, [first], generations, puts, sectors);
    if !result.Committed? {
      return;
    }
    HasEntries(old(cs.store.Current()), first, post);
    assert [first][0] == first;
    ok, id := SnapshotKeepingCache(cs);
  }

  /**
   * Write, snapshot, write again: the second write is cached, the snapshot remembers the first.
   * With room, only a fault can stop it, and then a batch of two still fits over the snapshot.
   */
  method WriteTwice(cs: CachedStore, first: PutRequest, second: PutRequest, ghost third: PutRequest, ghost other: PutRequest)
    returns (ok: bool, id: nat, ghost base: Generation)
    requires cs.Valid() && !cs.store.recoveryRequired
    modifies cs.store, cs.store.device, cs.store.allocator.bits, cs.cache, cs.cache.arena
    ensures cs.Valid() && old(cs.store.device.history) <= cs.store.device.history
    ensures ok ==> !cs.store.recoveryRequired && Remembers(cs.store, id, base)
    ensures ok ==> CachedOver(cs, base, second)
    ensures old(Ample(cs, first, second, third, other) && Keepable(cs, second)) ==>
              && (!cs.store.device.FaultedSince(old(|cs.store.device.history|)) ==> ok)
              && (ok ==> cs.store.generation + 1 < UINT64_MAX && Fits(cs.store, base.entries, [third, other], 2, 0, 0))
  {
    hide Lookup, PutOutcome, CrashTail, ArchivesOf, SnapshotsHeld, ArchiveOf, InArena, CellsFor, Roomy, Versions, ObjectSectors, Acceptable,
         NextVersion;
    hide ObjectStore.Valid, CachedStore.Caches, CachedStore.Valid;
    ok, id, base := false, 0, EMPTY;
    ghost var n, ample := |cs.store.table| + 3, Ample(cs, first, second, third, other) && Keepable(cs, second);
    ghost var two, three := ObjectSectors([second]), ObjectSectors([third, other]);
    if ample {
      TakesFirst(cs, first, second, third, other);
      FewerVersions(cs.store.table, 2, 1);
    }
    ok, id := WriteAndSnap(cs, first, 5, 1, two + three + 2 * n);
    if !ok {
      return;
    }
    base := cs.store.Current();
    var result;
    ghost var post;
    if ample {
      LessRoom(cs.store.allocator.Bits(), two + three + 2 * n, two + |cs.store.table| + |[second]| + (three + n));
      FewerVersions(cs.store.table, 1, 0);
    }
    result, post := PutFitting(cs, [second], 3, 0, three + n);
    ok := result.Committed? && Span(HEADER_SIZE + |second.payload|) <= cs.cache.arena.Length;
    assert [second][0] == second;
    if ample && ok {
      LessRoom(cs.store.allocator.Bits(), three + n, three + |base.entries| + |[third, other]| + 0);
    }
  }

  /**
   * The history that breaks coherence: write, snapshot, write again (cached), roll back, write the
   * same object in a batch of two, read. With room and without faults every step succeeds, and
   * the read answers with the write that was rolled back although the disk holds the batch's.
   */
  method RollbackThenBatch(cs: CachedStore, first: PutRequest, second: PutRequest, third: PutRequest, other: PutRequest)
    returns (done: bool, answer: Option<Reading>)
    requires cs.Valid() && !cs.store.recoveryRequired
    requires second.id == third.id && second.payload != third.payload
    modifies cs.store, cs.store.device, cs.store.allocator.bits, cs.cache, cs.cache.arena
    ensures cs.Valid()
    ensures old(Ample(cs, first, second, third, other) && Keepable(cs, second)) ==>
              !cs.store.device.FaultedSince(old(|cs.store.device.history|)) ==> done
    ensures done ==> !cs.store.recoveryRequired && cs.store.Here() in cs.store.held
                     && |cs.store.Current().blocks| == |cs.store.Current().entries|
    ensures done ==> answer.Some? && answer.value.payload == RawBytes(second.payload)
    ensures done ==> Cold(cs.store.Current(), third.id).Some?
                     && Cold(cs.store.Current(), third.id).value.payload == RawBytes(third.payload)
    ensures done ==> answer != Cold(cs.store.Current(), third.id)
  {
    hide Right, IsObject, Joined, PutOutcome, DeleteOutcome, CrashTail, ArchivesOf, SnapshotsHeld, Collides, ArchiveOf,
         Coherent, Behind, Without, Tiles, View, AllData, CellsFor, BlocksFor, Stageable, Find, Sorted, Lookup, InArena, Cold,
         RawBytes, Ample, Keepable, Roomy, Versions, ObjectSectors, Acceptable;
    hide ObjectStore.Valid, CachedStore.Truthful;
    done, answer := false, None;
    var ok, id;
    ghost var base, post;
    ok, id, base := WriteTwice(cs, first, second, third, other);
    if !ok {
      return;
    }
    ok := cs.Rollback(id);
    if !ok {
      return;
    }
    var result;
    result, post := PutFitting(cs, [third, other], 1, 0, 0);
    if !result.Committed? {
      return;
    }
    cs.Known();
    ghost var v := NextVersion(base.entries, second.id);
    ghost var c :| c in cs.cache.Entries() && c.id == second.id && c.version == v
                   && |CellsFor(second, v)| <= |c.bytes| && c.bytes[..|CellsFor(second, v)|] == CellsFor(second, v);
    assert [third, other][0] == third;
    StaleReading(base, second, third, other, post, c);
    answer := cs.Get(third.id);
    done := true;
  }

  /** A freshly formatted store of sufficient size has the room. */
  lemma FormattedIsAmple(cs: CachedStore, first: PutRequest, second: PutRequest, third: PutRequest, other: PutRequest)
    requires cs.store.table == [] && cs.store.generation == 0 && cs.store.snapshots == NO_SNAPSHOTS && cs.store.capacity >= 3
    requires Acceptable([first], cs.store.cacheCapacity) && Acceptable([second], cs.store.cacheCapacity)
    requires Acceptable([third, other], cs.store.cacheCapacity) && Span(HEADER_SIZE + |second.payload|) <= cs.cache.arena.Length
    requires Spare(cs.store.allocator.Bits(), FIRST_ALLOCATABLE)
    requires FIRST_ALLOCATABLE + ObjectSectors([first]) + ObjectSectors([second]) + ObjectSectors([third, other]) + 9
             <= cs.store.allocator.bits.Length
    ensures Ample(cs, first, second, third, other) && Keepable(cs, second)
  {
    hide ObjectSectors, Acceptable, Spare;
    assert |cs.store.allocator.Bits()| == cs.store.allocator.bits.Length;
    assert cs.store.snapshots[0].id == 0;
  }

  lemma StaleReading(base: Generation, second: PutRequest, third: PutRequest, other: PutRequest, post: Generation, c: Cached)
    requires PutOutcome(base, [third, other], post) && second.id == third.id && second.payload != third.payload
    requires !IsZero(second.id) && !IsZero(second.typeId) && !IsZero(third.typeId)
    requires c.id == second.id && c.version == NextVersion(base.entries, second.id)
    requires |CellsFor(second, c.version)| <= |c.bytes| && c.bytes[..|CellsFor(second, c.version)|] == CellsFor(second, c.version)
    ensures |post.blocks| == |post.entries|
    ensures Lookup(post, third.id).Some? && Lookup(post, third.id).value.version == c.version
    ensures IsObject(c.bytes) && ReadingOf(c.bytes).payload == RawBytes(second.payload)
    ensures Cold(post, third.id).Some? && Cold(post, third.id).value.payload == RawBytes(third.payload)
    ensures RawBytes(second.payload) != RawBytes(third.payload)
  {
    hide IsObject, Joined, AllData, CellsFor, BlocksFor, Find, Lookup, RawBytes, PayloadOf, HeaderOf;
    var requests := [third, other];
    assert requests[0] == third;
    assert Lookup(post, requests[0].id).Some?;
    CachedReading(c.bytes, second, c.version);
    StoredReading(third, c.version);
    if RawBytes(second.payload) == RawBytes(third.payload) {
      RawIsInjective(second.payload, third.payload);
    }
  }

  // ---- The transfer buffer -----------------------------------------------------------------------

  /**
   * Exactly which accepted objects a cold read can bring back: those that fit the whole
   * sectors of the transfer buffer. A buffer that is a multiple of the sector size takes all.
   */
  lemma ColdReadable(payload: nat, cacheCapacity: nat)
    requires HEADER_SIZE + payload <= cacheCapacity
    ensures FitsBuffer(SectorsFor(HEADER_SIZE + payload), cacheCapacity)
            <==> HEADER_SIZE + payload <= cacheCapacity / SECTOR_SIZE * SECTOR_SIZE
    ensures cacheCapacity % SECTOR_SIZE == 0 ==> FitsBuffer(SectorsFor(HEADER_SIZE + payload), cacheCapacity)
  {
    SectorsCover(HEADER_SIZE + payload);
  }

  lemma StoredBlocks(r: PutRequest, version: nat)
    ensures |BlocksFor(r, version)| == SectorsFor(HEADER_SIZE + |r.payload|)
  {
    EncodedLength(r, version);
    SectorsCover(HEADER_SIZE + |r.payload|);
  }

  /** Two slots are no longer together than all of them. */
  lemma {:induction false} TwoSlots(s: seq<Cached>, i: nat, j: nat)
    requires i < |s| && j < |s| && i != j
    ensures |s[i].bytes| + |s[j].bytes| <= Size(s)
    decreases |s|
  {
    var n := |s| - 1;
    if i < n && j < n {
      TwoSlots(s[..n], i, j);
    } else {
      OneSlot(s[..n], if i == n then j else i);
    }
  }

  lemma {:induction false} OneSlot(s: seq<Cached>, i: nat)
    requires i < |s|
    ensures |s[i].bytes| <= Size(s)
    decreases |s|
  {
    if i < |s| - 1 {
      OneSlot(s[..|s| - 1], i);
    }
  }

  /** What is cached truthfully is as long as the object. */
  lemma TruthfulLength(c: Cached, r: PutRequest, version: nat)
    requires !IsZero(r.id) && !IsZero(r.typeId) && version != 0 && Right(c, StoredObject(version, BlocksFor(r, version)))
    ensures |c.bytes| >= HEADER_SIZE + |r.payload|
  {
    StoredReading(r, version);
    EncodedLength(r, version);
  }

  /** Both objects do not fit the arena, so with the one cached the other is not. */
  lemma Crowded(cs: CachedStore, r: PutRequest, version: nat, other: PutRequest, otherVersion: nat)
    requires cs.Valid() && cs.Truthful() && r.id != other.id && version != 0 && !IsZero(r.id) && !IsZero(r.typeId)
    requires Lookup(cs.store.Current(), r.id) == Some(StoredObject(version, BlocksFor(r, version)))
    requires HEADER_SIZE + |r.payload| + HEADER_SIZE + |other.payload| > cs.cache.arena.Length
    requires cs.Caches(other.id, otherVersion, CellsFor(other, otherVersion))
    ensures !cs.Hit(r.id, version)
  {
    hide Lookup, Right, CellsFor, BlocksFor, View, Tiles, Size, IsObject;
    hide ObjectStore.Valid;
    var entries := cs.cache.Entries();
    EncodedLength(other, otherVersion);
    cs.cache.UsedIsSize();
    var c :| c in entries && c.id == other.id && |CellsFor(other, otherVersion)| <= |c.bytes|;
    var j :| 0 <= j < |entries| && entries[j] == c;
    forall i | 0 <= i < |cs.cache.slots|
      ensures !(entries[i].id == r.id && entries[i].version == version)
    {
      if entries[i].id == r.id && entries[i].version == version {
        assert entries[i] in entries;
        TruthfulLength(entries[i], r, version);
        TwoSlots(entries, i, j);
      }
    }
  }

  ghost predicate FitsBoth(store: ObjectStore, r: PutRequest, other: PutRequest)
    reads store, store.allocator.bits
  {
    && Fits(store, store.table, [r], 2, 1, ObjectSectors([other]) + |store.table| + 2)
    && |store.table| + 2 <= store.capacity && Acceptable([other], store.cacheCapacity)
  }

  lemma Stored(cs: CachedStore)
    requires cs.Valid() && !cs.store.recoveryRequired
    ensures cs.store.Here() in cs.store.held && cs.store.table == cs.store.Current().entries
    ensures |cs.store.Current().blocks| == |cs.store.Current().entries|
  {
    hide ObjectStore.Valid;
    cs.Known();
  }

  /**
   * An object that is accepted, stored and intact on disk, and unreadable once another one has
   * driven it out of the cache. With room only a fault can stop this history.
   */
  method UnreadableOnceEvicted(cs: CachedStore, r: PutRequest, other: PutRequest) returns (done: bool, answer: Option<Reading>)
    requires Serves(cs) && r.id != other.id
    requires !FitsBuffer(SectorsFor(HEADER_SIZE + |r.payload|), cs.store.cacheCapacity)
    requires HEADER_SIZE + |r.payload| + HEADER_SIZE + |other.payload| > cs.cache.arena.Length >= Span(HEADER_SIZE + |other.payload|)
    modifies cs.store, cs.store.device, cs.store.allocator.bits, cs.cache, cs.cache.arena
    ensures cs.Valid()
    ensures old(FitsBoth(cs.store, r, other)) ==>
              !cs.store.device.FaultedSince(old(|cs.store.device.history|)) ==> done
    ensures done ==> answer == None && !cs.store.recoveryRequired && cs.store.Here() in cs.store.held
                     && |cs.store.Current().blocks| == |cs.store.Current().entries|
    ensures done ==> Cold(cs.store.Current(), r.id).Some? && Cold(cs.store.Current(), r.id).value.payload == RawBytes(r.payload)
  {
    hide PutOutcome, CrashTail, ArchivesOf, SnapshotsHeld, ArchiveOf, InArena, CellsFor, Roomy, Versions, ObjectSectors, Acceptable,
         NextVersion, Lookup, Cold, IsObject, Joined, AllData, BlocksFor, RawBytes, Coherent, Behind;
    hide ObjectStore.Valid, CachedStore.Caches, CachedStore.Valid, CachedStore.Truthful, CachedStore.Hit;
    done, answer := false, None;
    Stored(cs);
    ghost var rest, fits := ObjectSectors([other]) + |cs.store.table| + 2, FitsBoth(cs.store, r, other);
    if fits {
      FewerVersions(cs.store.table, 1, 0);
    }
    ghost var post, last;
    var result;
    result, post := PutFitting(cs, [r], 2, 0, rest);
    if !result.Committed? {
      return;
    }
    if fits {
      LessRoom(cs.store.allocator.Bits(), rest, ObjectSectors([other]) + |cs.store.table| + |[other]| + 0);
    }
    ghost var pre, version, otherVersion := old(cs.store.Current()), NextVersion(old(cs.store.table), r.id), NextVersion(cs.store.table, other.id);
    result, last := PutFitting(cs, [other], 1, 0, 0);
    if !result.Committed? {
      return;
    }
    Stored(cs);
    assert [r][0] == r && [other][0] == other;
    StoredTwice(pre, r, post, other, last, version);
    Crowded(cs, r, version, other, otherVersion);
    StoredBlocks(r, version);
    answer := cs.Get(r.id);
    done := true;
  }

  /** The first of two puts of different objects is still there after the second. */
  lemma StoredTwice(pre: Generation, r: PutRequest, post: Generation, other: PutRequest, last: Generation, version: nat)
    requires PutOutcome(pre, [r], post) && PutOutcome(post, [other], last) && r.id != other.id
    requires version == NextVersion(pre.entries, r.id) && !IsZero(r.id) && !IsZero(r.typeId)
    ensures |last.blocks| == |last.entries| && version != 0
    ensures Lookup(last, r.id) == Some(StoredObject(version, BlocksFor(r, version)))
    ensures Cold(last, r.id).Some? && Cold(last, r.id).value.payload == RawBytes(r.payload)
  {
    hide Lookup, IsObject, Joined, AllData, BlocksFor, RawBytes, PayloadOf, HeaderOf;
    assert [r][0] == r && [other][0] == other;
    assert Lookup(post, [r][0].id) == Some(StoredObject(version, BlocksFor(r, version)));
    assert Lookup(last, r.id) == Lookup(post, r.id);
    StoredReading(r, version);
  }
}
