/**
 * Going back to a snapshot after a version was handed out again: the cache then answers with the
 * later content. Two ways there: another branch over an older snapshot, and erasing.
 */
module CacheReturns {
  import opened ObjectIds
  import opened ObjectTables
  import opened Layout
  import opened BlockDevice
  import opened Recovery
  import opened Bitmap
  import opened Requests
  import opened Generations
  import opened ObjectStores
  import opened Cache
  import opened CachedStores
  import opened CacheRuns
  import opened Rooms
  import opened CacheFailures

  // ---- From a wrong slot to a wrong answer ---------------------------------------------------------

  /** A slot carries the version this generation lists, with another content. */
  ghost predicate WrongFor(c: Cached, g: Generation) {
    && |g.blocks| == |g.entries| && !IsZero(c.id)
    && Lookup(g, c.id).Some? && Lookup(g, c.id).value.version == c.version && !Right(c, Lookup(g, c.id).value)
  }

  /** Reading through a wrong slot gives a wrong answer. */
  method ReadWrong(cs: CachedStore, id: ObjectId, ghost c: Cached) returns (answer: Option<Reading>)
    requires Up(cs) && c in cs.cache.Entries() && c.id == id && |cs.store.Current().blocks| == |cs.store.Current().entries|
    modifies cs.cache, cs.cache.arena
    ensures Up(cs)
    ensures WrongFor(c, cs.store.Current()) ==>
              && IsObject(c.bytes) && answer == Some(ReadingOf(c.bytes))
              && Cold(cs.store.Current(), id).Some? && answer != Cold(cs.store.Current(), id)
  {
    hide Lookup, IsObject, Joined, AllData, PayloadOf, HeaderOf, Tiles, View, SnapshotsHeld, ArchiveOf, Find, Sorted, Coherent, Clear,
         Behind;
    hide ObjectStore.Valid, CachedStore.Truthful, CachedStore.Unrolled, CachedStore.Unambiguous;
    cs.Known();
    ghost var found := Find(cs.store.table, id);
    if found.None? {
      NotFound(cs.store.Current(), id);
    } else {
      FindMeansMember(cs.store.table, id);
      cs.Listed(found.value);
    }
    answer := cs.Get(id);
  }

  /** Going back to a snapshot for which a slot is wrong, and reading. */
  method RollAndRead(cs: CachedStore, k: nat, id: ObjectId, ghost c: Cached) returns (ok: bool, answer: Option<Reading>)
    requires Up(cs) && c in cs.cache.Entries() && c.id == id && k in cs.store.Archive()
    modifies cs.store, cs.store.device, cs.cache, cs.cache.arena
    ensures cs.Valid() && old(cs.store.device.history) <= cs.store.device.history
    ensures old(cs.store.generation) < UINT64_MAX && !cs.store.device.FaultedSince(old(|cs.store.device.history|)) ==> ok
    ensures ok ==> && Up(cs) && cs.store.Current() == old(cs.store.Archive())[k]
                   && |cs.store.Current().blocks| == |cs.store.Current().entries|
    ensures ok && WrongFor(c, old(cs.store.Archive())[k]) ==>
              && IsObject(c.bytes) && answer == Some(ReadingOf(c.bytes))
              && Cold(cs.store.Current(), id).Some? && answer != Cold(cs.store.Current(), id)
  {
    hide WrongFor, Cold, IsObject, View, SnapshotsHeld, ArchiveOf, Coherent, Clear;
    hide ObjectStore.Valid, CachedStore.Truthful, CachedStore.Unrolled, CachedStore.Unambiguous;
    answer := None;
    ok := cs.Rollback(k);
    if ok {
      cs.Known();
      answer := ReadWrong(cs, id, c);
    }
  }

  /** An object the cache holds, or can be read into it. */
  ghost predicate Cacheable(cs: CachedStore, o: StoredObject)
    reads cs, cs.store, cs.cache
  {
    FitsBuffer(|o.blocks|, cs.store.cacheCapacity) && Span(|o.blocks| * SECTOR_SIZE) <= cs.cache.arena.Length
  }

  /** The generation in force and a snapshot list one version of an object with different contents. */
  ghost predicate Ambiguous(g: Generation, h: Generation, id: ObjectId) {
    && |g.blocks| == |g.entries| && |h.blocks| == |h.entries| && !IsZero(id) && Lookup(g, id).Some? && Lookup(h, id).Some?
    && Lookup(g, id).value.version == Lookup(h, id).value.version && !Alike(Lookup(g, id).value, Lookup(h, id).value)
  }

  lemma NotBothRight(c: Cached, g: Generation, h: Generation)
    requires Ambiguous(g, h, c.id) && c.version == Lookup(g, c.id).value.version && Right(c, Lookup(g, c.id).value)
    ensures WrongFor(c, h)
  {
    hide Lookup, IsObject, Joined, AllData, PayloadOf, HeaderOf;
  }

  /**
   * Ambiguity always shows: read the object, go back, read it again, and one of the two answers is
   * not what the disk holds at that moment.
   */
  method AmbiguityShows(cs: CachedStore, k: nat, id: ObjectId)
    returns (done: bool, first: Option<Reading>, second: Option<Reading>)
    requires Up(cs) && k in cs.store.Archive() && Ambiguous(cs.store.Current(), cs.store.Archive()[k], id)
    requires Cacheable(cs, Lookup(cs.store.Current(), id).value) || cs.Hit(id, Lookup(cs.store.Current(), id).value.version)
    modifies cs.store, cs.store.device, cs.cache, cs.cache.arena
    ensures cs.Valid() && old(cs.store.device.history) <= cs.store.device.history
    ensures old(cs.store.generation) < UINT64_MAX && !cs.store.device.FaultedSince(old(|cs.store.device.history|)) ==> done
    ensures done ==>
              && Up(cs) && cs.store.Current() == old(cs.store.Archive())[k]
              && (first != Cold(old(cs.store.Current()), id) || second != Cold(cs.store.Current(), id))
  {
    hide Lookup, IsObject, Joined, AllData, PayloadOf, HeaderOf, Tiles, View, SnapshotsHeld, ArchiveOf, Coherent, Clear, Behind, Alike,
         FitsBuffer, Find, Sorted;
    hide ObjectStore.Valid, CachedStore.Truthful, CachedStore.Unrolled, CachedStore.Unambiguous, CachedStore.Hit;
    ghost var g, h := cs.store.Current(), cs.store.Archive()[k];
    ghost var v := Lookup(g, id).value.version;
    first := cs.Get(id);
    ghost var c :| c in cs.cache.Entries() && c.id == id && c.version == v && IsObject(c.bytes) && ReadingOf(c.bytes) == first.value;
    if first == Cold(g, id) {
      NotBothRight(c, g, h);
    }
    done, second := RollAndRead(cs, k, id, c);
  }

  /**
   * So does every put that hands out a version again which a snapshot lists with another content:
   * exactly the puts after which the cache is no longer unambiguous because of a snapshot.
   */
  method MuddleShows(cs: CachedStore, requests: seq<PutRequest>, i: nat, k: nat)
    returns (done: bool, first: Option<Reading>, second: Option<Reading>, ghost post: Generation)
    requires Up(cs) && i < |requests| && k in cs.store.Archive()
    requires HandsOutAgain(cs.store.Archive()[k], cs.store.Current(), requests[i])
    requires FitsBuffer(SectorsFor(HEADER_SIZE + |requests[i].payload|), cs.store.cacheCapacity)
    requires Span(SectorsFor(HEADER_SIZE + |requests[i].payload|) * SECTOR_SIZE) <= cs.cache.arena.Length
    modifies cs.store, cs.store.device, cs.store.allocator.bits, cs.cache, cs.cache.arena
    ensures cs.Valid() && old(cs.store.device.history) <= cs.store.device.history
    ensures old(cs.store.Admissible(requests)) && old(cs.store.generation) + 1 < UINT64_MAX ==>
              !cs.store.device.FaultedSince(old(|cs.store.device.history|)) ==> done
    ensures done ==>
              && Up(cs) && cs.store.Current() == old(cs.store.Archive())[k] && PutOutcome(old(cs.store.Current()), requests, post)
              && (first != Cold(post, requests[i].id) || second != Cold(cs.store.Current(), requests[i].id))
  {
    hide Lookup, IsObject, Joined, AllData, PayloadOf, HeaderOf, Tiles, View, SnapshotsHeld, ArchiveOf, Coherent, Clear, Behind, Alike,
         FitsBuffer, Find, Sorted, PutOutcome, Collides, CellsFor, BlocksFor, AllFit, FitAll, Needs, StageAll, MergeAll, EntriesOf,
         Stageable, Reissued, HandsOutAgain, Cacheable, Ambiguous;
    hide ObjectStore.Valid, CachedStore.Truthful, CachedStore.Unrolled, CachedStore.Unambiguous, CachedStore.Hit, CachedStore.Caches,
         ObjectStore.Admissible;
    done, first, second := false, None, None;
    ghost var pre, archive, id := cs.store.Current(), cs.store.Archive(), requests[i].id;
    var result;
    result, post := cs.Put(requests);
    if !result.Committed? {
      return;
    }
    cs.Known();
    BecomesAmbiguous(cs, archive[k], pre, requests, i, post);
    done, first, second := AmbiguityShows(cs, k, requests[i].id);
  }

  lemma BecomesAmbiguous(cs: CachedStore, h: Generation, pre: Generation, requests: seq<PutRequest>, i: nat, post: Generation)
    requires PutOutcome(pre, requests, post) && i < |requests| && HandsOutAgain(h, pre, requests[i]) && !IsZero(requests[i].id)
    requires FitsBuffer(SectorsFor(HEADER_SIZE + |requests[i].payload|), cs.store.cacheCapacity)
    requires Span(SectorsFor(HEADER_SIZE + |requests[i].payload|) * SECTOR_SIZE) <= cs.cache.arena.Length
    ensures Ambiguous(post, h, requests[i].id) && Cacheable(cs, Lookup(post, requests[i].id).value)
  {
    hide Lookup, Alike, BlocksFor, NextVersion;
    StoredBlocks(requests[i], NextVersion(pre.entries, requests[i].id));
    assert Lookup(post, requests[i].id).Some?;
  }

  // ---- Another branch over an older snapshot --------------------------------------------------------

  /** Sectors, entries, versions and generations enough for three single puts, two snapshots and two rollbacks. */
  ghost predicate BranchRoom(cs: CachedStore, first: PutRequest, second: PutRequest, third: PutRequest)
    reads cs, cs.store, cs.store.allocator.bits, cs.cache
  {
    var n := |cs.store.table| + 2;
    && Acceptable([first], cs.store.cacheCapacity) && Acceptable([second], cs.store.cacheCapacity)
    && Acceptable([third], cs.store.cacheCapacity) && Span(HEADER_SIZE + |third.payload|) <= cs.cache.arena.Length
    && n <= cs.store.capacity && cs.store.generation + 7 <= UINT64_MAX && Versions(cs.store.table, 2)
    && Roomy(cs.store.allocator.Bits(), ObjectSectors([first]) + ObjectSectors([second]) + ObjectSectors([third]) + 3 * n)
  }

  /** Two free places for snapshots of these names. */
  ghost predicate TwoPlaces(snapshots: seq<Snapshot>, a: nat, b: nat) {
    && (exists i, j :: 0 <= i < j < |snapshots| && snapshots[i].id == 0 && snapshots[j].id == 0)
    && (forall i :: 0 <= i < |snapshots| ==> snapshots[i].id != a && snapshots[i].id != b)
  }

  lemma OnePlaceLeft(before: seq<Snapshot>, after: seq<Snapshot>, a: nat, b: nat)
    requires TwoPlaces(before, a, b) && Added(before, after, a) && a != b
    ensures Nameable(before, a) && Nameable(after, b)
  {
    var i, j :| 0 <= i < j < |before| && before[i].id == 0 && before[j].id == 0;
    var k :| 0 <= k < |before| && before[k].id == 0 && after == before[k := after[k]];
    assert after[if k == i then j else i].id == 0;
  }

  lemma FirstPlace(snapshots: seq<Snapshot>, a: nat, b: nat)
    requires TwoPlaces(snapshots, a, b)
    ensures Nameable(snapshots, a)
  {
  }

  lemma BranchFirst(cs: CachedStore, first: PutRequest, second: PutRequest, third: PutRequest)
    requires BranchRoom(cs, first, second, third)
    ensures FitsOne(cs.store, first, 7, 2, ObjectSectors([second]) + ObjectSectors([third]) + 2 * (|cs.store.table| + 2))
  {
    hide Roomy, Versions, ObjectSectors, Acceptable;
    var n, two, three := |cs.store.table| + 2, ObjectSectors([second]), ObjectSectors([third]);
    LessRoom(cs.store.allocator.Bits(), ObjectSectors([first]) + two + three + 3 * n,
             ObjectSectors([first]) + |cs.store.table| + |[first]| + (two + three + 2 * n));
  }

  /** What is left after the first write fits the second. */
  lemma BranchSecond(store: ObjectStore, second: PutRequest, n: nat, generation: nat, three: nat)
    requires n >= 1 && Left(store, generation + 2, n - 1, 1, ObjectSectors([second]) + three + 2 * n)
    requires Acceptable([second], store.cacheCapacity) && n <= store.capacity && generation + 7 <= UINT64_MAX
    ensures FitsOne(store, second, 5, 1, three + n)
  {
    hide Roomy, Versions, ObjectSectors, Acceptable;
    var two := ObjectSectors([second]);
    LessRoom(store.allocator.Bits(), two + three + 2 * n, two + |store.table| + |[second]| + (three + n));
  }

  /** What is left after the second write fits a third over the first snapshot. */
  lemma BranchThird(store: ObjectStore, entries: seq<Entry>, third: PutRequest, n: nat, generation: nat)
    requires Left(store, generation + 4, |entries| + 1, 0, ObjectSectors([third]) + n) && Versions(entries, 1) && |entries| + 1 <= n
    requires Acceptable([third], store.cacheCapacity) && n <= store.capacity && generation + 7 <= UINT64_MAX
    ensures Fits(store, entries, [third], 3, 0, 0)
  {
    hide Roomy, Versions, ObjectSectors, Acceptable;
    FewerVersions(entries, 1, 0);
    LessRoom(store.allocator.Bits(), ObjectSectors([third]) + n, ObjectSectors([third]) + |entries| + |[third]| + 0);
  }

  lemma BranchBounds(cs: CachedStore, first: PutRequest, second: PutRequest, third: PutRequest)
    requires BranchRoom(cs, first, second, third)
    ensures Acceptable([second], cs.store.cacheCapacity) && Acceptable([third], cs.store.cacheCapacity)
    ensures |cs.store.table| + 2 <= cs.store.capacity && cs.store.generation + 7 <= UINT64_MAX
  {
    hide Roomy, Versions, ObjectSectors, Acceptable;
  }

  lemma LeftBounds(store: ObjectStore, generation: nat, entries: nat, puts: nat, sectors: nat)
    requires Left(store, generation, entries, puts, sectors)
    ensures |store.table| <= entries && Versions(store.table, puts)
  {
    hide Roomy, Versions;
  }

  /** Two snapshots, the second one write after the first. */
  method TwoSnapshots(cs: CachedStore, first: PutRequest, second: PutRequest, ghost third: PutRequest)
    returns (ok: bool, s1: nat, s2: nat, ghost base: Generation, ghost branch: Generation)
    requires Up(cs)
    modifies cs.store, cs.store.device, cs.store.allocator.bits, cs.cache, cs.cache.arena
    ensures cs.Valid() && old(cs.store.device.history) <= cs.store.device.history
    ensures ok ==> !cs.store.recoveryRequired && Remembers(cs.store, s1, base) && Remembers(cs.store, s2, branch)
    ensures ok ==> PutOutcome(base, [second], branch) && !IsZero(second.id) && !IsZero(second.typeId)
    ensures old(BranchRoom(cs, first, second, third) && TwoPlaces(cs.store.snapshots, cs.store.generation + 2, cs.store.generation + 4)) ==>
              && (!cs.store.device.FaultedSince(old(|cs.store.device.history|)) ==> ok)
              && (ok ==> Fits(cs.store, base.entries, [third], 3, 0, 0))
  {
    hide Lookup, PutOutcome, SnapshotsHeld, ArchiveOf, InArena, Roomy, Versions, ObjectSectors, Acceptable, BranchRoom, Left, FitsOne,
         TwoPlaces, Nameable, Added;
    hide ObjectStore.Valid, CachedStore.Valid;
    ok, s1, s2, base, branch := false, 0, 0, EMPTY, EMPTY;
    ghost var n, three, generation := |cs.store.table| + 2, ObjectSectors([third]), cs.store.generation;
    ghost var room := BranchRoom(cs, first, second, third) && TwoPlaces(cs.store.snapshots, generation + 2, generation + 4);
    ghost var places := cs.store.snapshots;
    if room {
      BranchBounds(cs, first, second, third);
      BranchFirst(cs, first, second, third);
      FirstPlace(places, generation + 2, generation + 4);
    }
    ok, s1 := WriteAndSnap(cs, first, 7, 1, ObjectSectors([second]) + three + 2 * n);
    if !ok {
      return;
    }
    base := cs.store.Current();
    if room {
      LeftBounds(cs.store, generation + 2, n - 1, 1, ObjectSectors([second]) + three + 2 * n);
      BranchSecond(cs.store, second, n, generation, three);
      OnePlaceLeft(places, cs.store.snapshots, generation + 2, generation + 4);
    }
    ok, s2 := WriteAndSnap(cs, second, 5, 0, three + n);
    if !ok {
      return;
    }
    branch := cs.store.Current();
    if room {
      assert |base.entries| + 1 <= n;
      BranchThird(cs.store, base.entries, third, n, generation);
    }
  }

  lemma StaleBranch(base: Generation, second: PutRequest, branch: Generation, third: PutRequest, c: Cached)
    requires PutOutcome(base, [second], branch) && second.id == third.id && second.payload != third.payload
    requires !IsZero(second.id) && !IsZero(second.typeId) && !IsZero(third.typeId)
    requires c.id == third.id && c.version == NextVersion(base.entries, third.id)
    requires |CellsFor(third, c.version)| <= |c.bytes| && c.bytes[..|CellsFor(third, c.version)|] == CellsFor(third, c.version)
    ensures WrongFor(c, branch) && IsObject(c.bytes) && ReadingOf(c.bytes).payload == RawBytes(third.payload)
    ensures Cold(branch, second.id).Some? && Cold(branch, second.id).value.payload == RawBytes(second.payload)
  {
    hide IsObject, Joined, AllData, CellsFor, BlocksFor, Find, Lookup, RawBytes, PayloadOf, HeaderOf;
    PutOne(base, second, branch);
    FreshlyPut(c, third, second);
    CachedReading(c.bytes, third, c.version);
    StoredReading(second, c.version);
  }

  /**
   * Write, snapshot, write, snapshot, go back to the first, write again alone, go back to the
   * second, read. Every put is refreshed in the cache, and with room every step succeeds unless a
   * request fails; the read answers with the last write although the disk holds the one before.
   */
  method BranchAndReturn(cs: CachedStore, first: PutRequest, second: PutRequest, third: PutRequest)
    returns (done: bool, answer: Option<Reading>)
    requires Up(cs) && second.id == third.id && second.payload != third.payload
    modifies cs.store, cs.store.device, cs.store.allocator.bits, cs.cache, cs.cache.arena
    ensures cs.Valid()
    ensures old(BranchRoom(cs, first, second, third) && TwoPlaces(cs.store.snapshots, cs.store.generation + 2, cs.store.generation + 4)) ==>
              !cs.store.device.FaultedSince(old(|cs.store.device.history|)) ==> done
    ensures done ==> Up(cs) && |cs.store.Current().blocks| == |cs.store.Current().entries|
    ensures done ==> answer.Some? && answer.value.payload == RawBytes(third.payload)
    ensures done ==> Cold(cs.store.Current(), second.id).Some?
                     && Cold(cs.store.Current(), second.id).value.payload == RawBytes(second.payload)
    ensures done ==> answer != Cold(cs.store.Current(), second.id)
  {
    hide Lookup, PutOutcome, SnapshotsHeld, ArchiveOf, Roomy, Versions, ObjectSectors, Acceptable, BranchRoom, TwoPlaces, WrongFor, Cold,
         RawBytes, CellsFor, View, Coherent, Clear, IsObject, PayloadOf, HeaderOf, Behind;
    hide ObjectStore.Valid, CachedStore.Truthful, CachedStore.Unrolled, CachedStore.Unambiguous;
    done, answer := false, None;
    ghost var arena := BranchRoom(cs, first, second, third) && TwoPlaces(cs.store.snapshots, cs.store.generation + 2, cs.store.generation + 4);
    if arena {
      BranchCached(cs, first, second, third);
    }
    var ok, s1, s2;
    ghost var base, branch;
    ok, s1, s2, base, branch := TwoSnapshots(cs, first, second, third);
    if !ok {
      return;
    }
    cs.Known();
    ok := cs.Rollback(s1);
    if !ok {
      return;
    }
    done, answer := PutAndReturn(cs, base, branch, second, third, s2);
  }

  lemma BranchCached(cs: CachedStore, first: PutRequest, second: PutRequest, third: PutRequest)
    requires BranchRoom(cs, first, second, third)
    ensures Span(HEADER_SIZE + |third.payload|) <= cs.cache.arena.Length
  {
    hide Roomy, Versions, ObjectSectors, Acceptable;
  }

  /** A freshly formatted store of sufficient size has the room. */
  lemma FormattedCanBranch(cs: CachedStore, first: PutRequest, second: PutRequest, third: PutRequest)
    requires cs.store.table == [] && cs.store.generation == 0 && cs.store.snapshots == NO_SNAPSHOTS && cs.store.capacity >= 2
    requires Acceptable([first], cs.store.cacheCapacity) && Acceptable([second], cs.store.cacheCapacity)
    requires Acceptable([third], cs.store.cacheCapacity) && Span(HEADER_SIZE + |third.payload|) <= cs.cache.arena.Length
    requires Spare(cs.store.allocator.Bits(), FIRST_ALLOCATABLE)
    requires FIRST_ALLOCATABLE + ObjectSectors([first]) + ObjectSectors([second]) + ObjectSectors([third]) + 6
             <= cs.store.allocator.bits.Length
    ensures BranchRoom(cs, first, second, third) && TwoPlaces(cs.store.snapshots, 2, 4)
  {
    hide ObjectSectors, Acceptable, Spare;
    assert |cs.store.allocator.Bits()| == cs.store.allocator.bits.Length;
    assert cs.store.snapshots[0].id == 0 && cs.store.snapshots[1].id == 0;
  }

  // ---- Erasing ---------------------------------------------------------------------------------------

  /** Sectors, entries, versions and generations enough for two single puts, a snapshot, a deletion and a rollback. */
  ghost predicate EraseRoom(cs: CachedStore, first: PutRequest, second: PutRequest)
    reads cs, cs.store, cs.store.allocator.bits, cs.cache
  {
    var n := |cs.store.table| + 1;
    && Acceptable([first], cs.store.cacheCapacity) && Acceptable([second], cs.store.cacheCapacity)
    && Span(HEADER_SIZE + |second.payload|) <= cs.cache.arena.Length
    && n <= cs.store.capacity && cs.store.generation + 5 <= UINT64_MAX && Versions(cs.store.table, 1)
    && Roomy(cs.store.allocator.Bits(), ObjectSectors([first]) + ObjectSectors([second]) + 3 * n)
    && Nameable(cs.store.snapshots, cs.store.generation + 2)
  }

  lemma EraseFirst(cs: CachedStore, first: PutRequest, second: PutRequest)
    requires EraseRoom(cs, first, second)
    ensures FitsOne(cs.store, first, 5, 1, ObjectSectors([second]) + 2 * (|cs.store.table| + 1))
    ensures Nameable(cs.store.snapshots, cs.store.generation + 2) && Span(HEADER_SIZE + |second.payload|) <= cs.cache.arena.Length
    ensures Acceptable([second], cs.store.cacheCapacity)
    ensures |cs.store.table| + 1 <= cs.store.capacity && cs.store.generation + 5 <= UINT64_MAX
  {
    hide Roomy, Versions, ObjectSectors, Acceptable, Nameable;
    var n, two := |cs.store.table| + 1, ObjectSectors([second]);
    LessRoom(cs.store.allocator.Bits(), ObjectSectors([first]) + two + 3 * n,
             ObjectSectors([first]) + |cs.store.table| + |[first]| + (two + 2 * n));
  }

  /** A deletion with room succeeds unless a request fails, and leaves what it did not need. */
  method DeleteFitting(cs: CachedStore, id: ObjectId, ghost n: nat, ghost sectors: nat) returns (ok: bool, ghost post: Generation)
    requires Up(cs) && !IsZero(id) && |cs.store.Current().blocks| == |cs.store.Current().entries| && Lookup(cs.store.Current(), id).Some?
    modifies cs.store, cs.store.device, cs.store.allocator.bits, cs.cache, cs.cache.arena
    ensures cs.Valid() && old(cs.store.device.history) <= cs.store.device.history
    ensures ok ==> && Up(cs) && cs.store.Current() == post && DeleteOutcome(old(cs.store.Current()), id, post)
                   && cs.store.Archive() == old(cs.store.Archive()) && cs.store.generation == old(cs.store.generation) + 1
    ensures old(|cs.store.table| <= n && Versions(cs.store.table, 0) && Roomy(cs.store.allocator.Bits(), n + sectors)
                && cs.store.generation < UINT64_MAX) ==>
              && (!cs.store.device.FaultedSince(old(|cs.store.device.history|)) ==> ok)
              && (ok ==> Versions(cs.store.table, 0) && Roomy(cs.store.allocator.Bits(), sectors) && |cs.store.table| + 1 <= n)
  {
    hide Lookup, DeleteOutcome, SnapshotsHeld, ArchiveOf, Roomy, Versions, View, Coherent, Clear, Find, Sorted, AllFit, FitAll, Needs;
    hide ObjectStore.Valid, CachedStore.Truthful, CachedStore.Unrolled, CachedStore.Unambiguous;
    cs.Known();
    if Find(cs.store.table, id).None? {
      NotFound(cs.store.Current(), id);
    }
    ghost var pre, table, bits := cs.store.Current(), cs.store.table, cs.store.allocator.Bits();
    ghost var room := |table| <= n && Versions(table, 0) && Roomy(bits, n + sectors);
    if room {
      Nonempty(table, id);
      LessRoom(bits, n + sectors, |table| - 1 + sectors);
      RoomForTable(bits, |table| - 1, sectors);
    }
    ok, post := cs.Delete(id);
    if ok {
      cs.Known();
      cs.ArchiveKnown();
      if room {
        VersionsAfterDelete(pre, id, post, 0);
      }
    }
  }

  lemma Nonempty(table: seq<Entry>, id: ObjectId)
    requires Find(table, id).Some?
    ensures table != []
  {
  }

  /** An object that was not there before. */
  lemma FirstVersion(g: Generation, id: ObjectId)
    requires |g.blocks| == |g.entries| && Sorted(g.entries) && Lookup(g, id) == None
    ensures NextVersion(g.entries, id) == 1
  {
    hide Lookup, Sorted;
    VersionOfLookup(g, id);
  }

  lemma StillThere(pre: Generation, r: PutRequest, post: Generation)
    requires PutOutcome(pre, [r], post)
    ensures |post.blocks| == |post.entries| && Lookup(post, r.id).Some?
  {
    hide Lookup;
    PutOne(pre, r, post);
  }

  /**
   * Write a new object, snapshot, erase it, write it anew, go back, read: nothing was rolled back
   * before, every put is refreshed in the cache, and yet the read answers with the later write
   * although the disk holds the earlier one.
   */
  method EraseAndReturn(cs: CachedStore, first: PutRequest, second: PutRequest) returns (done: bool, answer: Option<Reading>)
    requires Up(cs) && first.id == second.id && first.payload != second.payload
    requires |cs.store.Current().blocks| == |cs.store.Current().entries| && Lookup(cs.store.Current(), first.id) == None
    modifies cs.store, cs.store.device, cs.store.allocator.bits, cs.cache, cs.cache.arena
    ensures cs.Valid()
    ensures old(EraseRoom(cs, first, second)) ==> !cs.store.device.FaultedSince(old(|cs.store.device.history|)) ==> done
    ensures done ==> Up(cs) && |cs.store.Current().blocks| == |cs.store.Current().entries|
    ensures done ==> answer.Some? && answer.value.payload == RawBytes(second.payload)
    ensures done ==> Cold(cs.store.Current(), first.id).Some?
                     && Cold(cs.store.Current(), first.id).value.payload == RawBytes(first.payload)
    ensures done ==> answer != Cold(cs.store.Current(), first.id)
  {
    hide Lookup, PutOutcome, SnapshotsHeld, ArchiveOf, Roomy, Versions, ObjectSectors, Acceptable, EraseRoom, Nameable, WrongFor, Cold,
         RawBytes, CellsFor, View, Coherent, Clear, IsObject, PayloadOf, HeaderOf, Behind, Left, FitsOne, NextVersion, Sorted;
    hide ObjectStore.Valid, CachedStore.Truthful, CachedStore.Unrolled, CachedStore.Unambiguous;
    done, answer := false, None;
    ghost var n, two, room := |cs.store.table| + 1, ObjectSectors([second]), EraseRoom(cs, first, second);
    ghost var pre, generation := cs.store.Current(), cs.store.generation;
    cs.Known();
    FirstVersion(pre, first.id);
    if room {
      EraseFirst(cs, first, second);
    }
    var ok, k := WriteAndSnap(cs, first, 5, 0, two + 2 * n);
    if !ok {
      return;
    }
    cs.Known();
    cs.ArchiveKnown();
    ghost var base := cs.store.Current();
    StillThere(pre, first, base);
    if room {
      LeftFits(cs.store, generation + 2, n, two + 2 * n, n + (two + n));
    }
    ghost var gone;
    ok, gone := DeleteFitting(cs, first.id, n, two + n);
    if !ok {
      return;
    }
    cs.Known();
    ErasedVersion(base, first.id, gone);
    if room {
      EraseSecond(cs.store, second, n, generation);
    }
    done, answer := PutAndReturn(cs, pre, base, first, second, k);
  }

  lemma LeftFits(store: ObjectStore, generation: nat, entries: nat, sectors: nat, less: nat)
    requires Left(store, generation, entries, 0, sectors) && less <= sectors
    ensures |store.table| <= entries && Versions(store.table, 0) && Roomy(store.allocator.Bits(), less)
  {
    hide Roomy, Versions;
    LessRoom(store.allocator.Bits(), sectors, less);
  }

  lemma ErasedVersion(pre: Generation, id: ObjectId, gone: Generation)
    requires DeleteOutcome(pre, id, gone) && Sorted(gone.entries)
    ensures NextVersion(gone.entries, id) == 1
  {
    hide Lookup, Sorted, NextVersion;
    FirstVersion(gone, id);
  }

  lemma EraseSecond(store: ObjectStore, second: PutRequest, n: nat, generation: nat)
    requires Versions(store.table, 0) && Roomy(store.allocator.Bits(), ObjectSectors([second]) + n) && |store.table| + 1 <= n
    requires Acceptable([second], store.cacheCapacity) && n <= store.capacity && store.generation == generation + 3
    requires generation + 5 <= UINT64_MAX
    ensures FitsOne(store, second, 2, 0, 0)
  {
    hide Roomy, Versions, ObjectSectors, Acceptable;
    LessRoom(store.allocator.Bits(), ObjectSectors([second]) + n, ObjectSectors([second]) + |store.table| + |[second]| + 0);
  }

  /** Writing an object whose version a snapshot lists, going back to that, and reading. */
  method PutAndReturn(cs: CachedStore, ghost pre: Generation, ghost base: Generation, ghost first: PutRequest, second: PutRequest, k: nat)
    returns (done: bool, answer: Option<Reading>)
    requires Up(cs) && first.id == second.id && first.payload != second.payload && !IsZero(first.id) && !IsZero(first.typeId)
    requires k in cs.store.Archive() && cs.store.Archive()[k] == base && PutOutcome(pre, [first], base)
    requires NextVersion(cs.store.table, second.id) == NextVersion(pre.entries, second.id)
    modifies cs.store, cs.store.device, cs.store.allocator.bits, cs.cache, cs.cache.arena
    ensures cs.Valid() && old(cs.store.device.history) <= cs.store.device.history
    ensures old(FitsOne(cs.store, second, 2, 0, 0)) && Span(HEADER_SIZE + |second.payload|) <= cs.cache.arena.Length ==>
              !cs.store.device.FaultedSince(old(|cs.store.device.history|)) ==> done
    ensures done ==>
              && Up(cs) && cs.store.Current() == base && |base.blocks| == |base.entries|
              && answer.Some? && answer.value.payload == RawBytes(second.payload)
              && Cold(base, first.id).Some? && Cold(base, first.id).value.payload == RawBytes(first.payload)
              && answer != Cold(base, first.id)
  {
    hide Lookup, PutOutcome, SnapshotsHeld, ArchiveOf, Roomy, Versions, ObjectSectors, Acceptable, WrongFor, Cold,
         RawBytes, CellsFor, View, Coherent, Clear, IsObject, PayloadOf, HeaderOf, Behind, NextVersion;
    hide ObjectStore.Valid, CachedStore.Truthful, CachedStore.Unrolled, CachedStore.Unambiguous;
    done, answer := false, None;
    var result;
    ghost var post;
    ghost var v := NextVersion(pre.entries, second.id);
    result, post := PutFitting(cs, [second], 2, 0, 0);
    if !result.Committed? || Span(HEADER_SIZE + |second.payload|) > cs.cache.arena.Length {
      return;
    }
    cs.Known();
    assert [second][0] == second;
    ghost var c :| c in cs.cache.Entries() && c.id == second.id && c.version == v
                   && |CellsFor(second, v)| <= |c.bytes| && c.bytes[..|CellsFor(second, v)|] == CellsFor(second, v);
    StaleBranch(pre, first, base, second, c);
    done, answer := RollAndRead(cs, k, second.id, c);
  }

  /** A freshly formatted store of sufficient size has the room. */
  lemma FormattedCanErase(cs: CachedStore, first: PutRequest, second: PutRequest)
    requires cs.store.table == [] && cs.store.generation == 0 && cs.store.snapshots == NO_SNAPSHOTS && cs.store.capacity >= 1
    requires Acceptable([first], cs.store.cacheCapacity) && Acceptable([second], cs.store.cacheCapacity)
    requires Span(HEADER_SIZE + |second.payload|) <= cs.cache.arena.Length
    requires Spare(cs.store.allocator.Bits(), FIRST_ALLOCATABLE)
    requires FIRST_ALLOCATABLE + ObjectSectors([first]) + ObjectSectors([second]) + 3 <= cs.store.allocator.bits.Length
    ensures EraseRoom(cs, first, second)
  {
    hide ObjectSectors, Acceptable, Spare;
    assert |cs.store.allocator.Bits()| == cs.store.allocator.bits.Length;
    assert cs.store.snapshots[0].id == 0;
  }
}
