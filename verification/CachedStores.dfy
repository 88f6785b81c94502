/** The store behind its cache: when a hit is as good as a cold read. */
module CachedStores {
  import opened ObjectIds
  import opened ObjectTables
  import opened Layout
  import opened BlockDevice
  import opened Recovery
  import opened Bitmap
  import opened Requests
  import opened Generations
  import opened ObjectStores
  import opened Cache

  /** What a reader is given: the header and the payload it announces. */
  datatype Reading = Reading(header: Header, payload: seq<Cell>)

  function ReadingOf(cells: seq<Cell>): (r: Reading)
    requires IsObject(cells)
    ensures !IsZero(r.header.id) && !IsZero(r.header.typeId) && r.header.version != 0 && |r.payload| == r.header.payloadSize
  {
    Reading(HeaderOf(cells), PayloadOf(cells))
  }

  /** The cached bytes read like the stored sectors. */
  ghost predicate Right(c: Cached, o: StoredObject) {
    && IsObject(c.bytes) && AllData(o.blocks) && IsObject(Joined(o.blocks))
    && ReadingOf(c.bytes) == ReadingOf(Joined(o.blocks))
  }

  /** No slot that a read would hit is wrong. */
  ghost predicate Coherent(entries: seq<Cached>, g: Generation)
    requires |g.blocks| == |g.entries|
  {
    forall c :: c in entries ==>
      var o := Lookup(g, c.id);
      o.Some? && o.value.version == c.version ==> Right(c, o.value)
  }

  /** Slots belong to live objects and never run ahead of the table. */
  ghost predicate Behind(entries: seq<Cached>, g: Generation)
    requires |g.blocks| == |g.entries|
  {
    forall c :: c in entries ==> var o := Lookup(g, c.id); o.Some? && c.version <= o.value.version
  }

  // ---- What each operation does to the cache's truth ------------------------------------------

  /** A batch only moves versions forward, so no slot of an unrolled history can be hit by mistake. */
  lemma PutKeepsCache(entries: seq<Cached>, pre: Generation, requests: seq<PutRequest>, post: Generation)
    requires PutOutcome(pre, requests, post) && Sorted(pre.entries)
    requires Coherent(entries, pre) && Behind(entries, pre)
    ensures Coherent(entries, post) && Behind(entries, post)
  {
    hide Lookup, Right, Sorted, BlocksFor, Find;
    forall c | c in entries
      ensures var o := Lookup(post, c.id);
              && o.Some? && c.version <= o.value.version
              && (o.value.version == c.version ==> Right(c, o.value))
    {
      VersionOfLookup(pre, c.id);
      if i :| 0 <= i < |requests| && requests[i].id == c.id {
      } else {
        assert Lookup(post, c.id) == Lookup(pre, c.id);
      }
    }
  }

  /** A slot caches exactly the version a batch is about to assign, with other content. */
  ghost predicate Collides(entries: seq<Cached>, pre: Generation, requests: seq<PutRequest>) {
    exists c, i :: c in entries && 0 <= i < |requests| && c.id == requests[i].id
                   && c.version == NextVersion(pre.entries, c.id)
                   && !Right(c, StoredObject(c.version, BlocksFor(requests[i], c.version)))
  }

  /** Exactly when a batch that does not refresh the cache leaves it coherent. */
  lemma PutCoherentExactly(entries: seq<Cached>, pre: Generation, requests: seq<PutRequest>, post: Generation)
    requires PutOutcome(pre, requests, post) && Coherent(entries, pre)
    ensures Coherent(entries, post) <==> !Collides(entries, pre, requests)
  {
    hide Lookup, Right, BlocksFor, Find;
    if !Collides(entries, pre, requests) {
      forall c | c in entries
        ensures var o := Lookup(post, c.id); o.Some? && o.value.version == c.version ==> Right(c, o.value)
      {
        if i :| 0 <= i < |requests| && requests[i].id == c.id {
        } else {
          assert Lookup(post, c.id) == Lookup(pre, c.id);
        }
      }
    } else {
      var c, i :| c in entries && 0 <= i < |requests| && c.id == requests[i].id
                  && c.version == NextVersion(pre.entries, c.id)
                  && !Right(c, StoredObject(c.version, BlocksFor(requests[i], c.version)));
      assert Lookup(post, requests[i].id) == Some(StoredObject(c.version, BlocksFor(requests[i], c.version)));
    }
  }

  lemma PutOne(pre: Generation, r: PutRequest, post: Generation)
    requires PutOutcome(pre, [r], post)
    ensures |pre.blocks| == |pre.entries| && |post.blocks| == |post.entries|
    ensures var version := NextVersion(pre.entries, r.id);
            version != 0 && Lookup(post, r.id) == Some(StoredObject(version, BlocksFor(r, version)))
  {
    hide Lookup, BlocksFor, Find;
    assert [r][0] == r;
    assert Lookup(post, [r][0].id).Some?;
  }

  /** A single put touches no other object. */
  lemma PutOthers(entries: seq<Cached>, pre: Generation, r: PutRequest, post: Generation)
    requires PutOutcome(pre, [r], post) && UniqueSlots(entries) && Coherent(entries, pre)
    ensures Coherent(Without(entries, r.id), post)
    ensures Behind(entries, pre) ==> Behind(Without(entries, r.id), post)
  {
    hide Lookup, Right, Without, BlocksFor, Find;
    WithoutIsGone(entries, r.id);
    forall c | c in Without(entries, r.id)
      ensures Lookup(post, c.id) == Lookup(pre, c.id)
    {
      assert forall i :: 0 <= i < |[r]| ==> [r][i].id != c.id;
    }
  }

  lemma StageableRequests(table: seq<Entry>, requests: seq<PutRequest>, capacity: nat, cacheCapacity: nat)
    requires Stageable(table, requests, capacity, cacheCapacity)
    ensures forall i :: 0 <= i < |requests| ==> !IsZero(requests[i].id) && !IsZero(requests[i].typeId)
  {
    assert forall i :: 0 <= i < |requests| ==> RequestOk(requests[i], cacheCapacity);
  }

  lemma EncodedLength(r: PutRequest, version: nat)
    ensures |CellsFor(r, version)| == HEADER_SIZE + |r.payload|
    ensures CellsFor(r, version)[..|CellsFor(r, version)|] == CellsFor(r, version)
  {
  }

  lemma WithoutObjects(entries: seq<Cached>, id: ObjectId)
    requires AllObjects(entries) && UniqueSlots(entries)
    ensures AllObjects(Without(entries, id))
  {
    hide IsObject, Without;
    WithoutIsGone(entries, id);
  }

  lemma DeleteKeepsCache(entries: seq<Cached>, pre: Generation, id: ObjectId, post: Generation)
    requires DeleteOutcome(pre, id, post) && UniqueSlots(entries)
    requires Coherent(entries, pre)
    ensures Coherent(Without(entries, id), post)
    ensures Behind(entries, pre) ==> Behind(Without(entries, id), post)
  {
    hide Lookup, Right, Without;
    WithoutIsGone(entries, id);
  }

  /** Dropping slots and adding one that is right keeps the cache true. */
  lemma InsertKeepsCache(entries: seq<Cached>, after: seq<Cached>, c: Cached, g: Generation)
    requires |g.blocks| == |g.entries|
    requires forall x :: x in after ==> x in entries || x == c
    requires var o := Lookup(g, c.id); o.Some? && o.value.version == c.version && Right(c, o.value)
    requires Coherent(entries, g)
    ensures Coherent(after, g)
    ensures Behind(entries, g) ==> Behind(after, g)
  {
    hide Lookup, Right;
  }

  // ---- Generations one may come back to ---------------------------------------------------------

  /** Two stored objects that read the same. */
  ghost predicate Alike(o: StoredObject, p: StoredObject) {
    || o == p
    || (AllData(o.blocks) && IsObject(Joined(o.blocks)) && AllData(p.blocks) && IsObject(Joined(p.blocks))
        && ReadingOf(Joined(o.blocks)) == ReadingOf(Joined(p.blocks)))
  }

  /** A version of an object that both have is the same in both. */
  ghost predicate Agree(g: Generation, h: Generation) {
    && |g.blocks| == |g.entries| && |h.blocks| == |h.entries|
    && forall id :: Lookup(g, id).Some? && Lookup(h, id).Some? && Lookup(g, id).value.version == Lookup(h, id).value.version ==>
         Alike(Lookup(g, id).value, Lookup(h, id).value)
  }

  /** Among the slots, the generation in force and those archived, a version of an object has one content. */
  ghost predicate Clear(entries: seq<Cached>, g: Generation, archive: Archive) {
    && Agree(g, g) && Coherent(entries, g)
    && (forall k :: k in archive ==> Agree(g, archive[k]) && Coherent(entries, archive[k]))
    && (forall j, k :: j in archive && k in archive ==> Agree(archive[j], archive[k]))
  }

  lemma AgreeSelf(g: Generation)
    requires |g.blocks| == |g.entries|
    ensures Agree(g, g)
  {
    hide Lookup;
  }

  lemma AgreeBack(g: Generation, h: Generation)
    requires Agree(g, h)
    ensures Agree(h, g)
  {
    hide Lookup;
  }

  lemma AlikeRight(c: Cached, o: StoredObject, p: StoredObject)
    requires Right(c, o) && Alike(o, p)
    ensures Right(c, p)
  {
    hide IsObject, AllData, Joined, PayloadOf, HeaderOf;
  }

  /** Rolling back, whatever the cache holds. */
  lemma ClearRollback(entries: seq<Cached>, g: Generation, archive: Archive, k: nat)
    requires Clear(entries, g, archive) && k in archive
    ensures Clear(entries, archive[k], archive)
  {
    hide Agree, Coherent;
  }

  lemma ClearSnapshot(entries: seq<Cached>, g: Generation, archive: Archive, k: nat)
    requires Clear(entries, g, archive)
    ensures Clear(entries, g, archive[k := g]) && Clear(entries, g, archive - {k})
  {
    hide Agree, Coherent;
    forall j | j in archive
      ensures Agree(archive[j], g)
    {
      AgreeBack(g, archive[j]);
    }
  }

  /** Fewer slots, and one that is right. */
  lemma ClearInsert(entries: seq<Cached>, after: seq<Cached>, c: Cached, g: Generation, archive: Archive)
    requires Clear(entries, g, archive) && forall x :: x in after ==> x in entries || x == c
    requires var o := Lookup(g, c.id); o.Some? && o.value.version == c.version && Right(c, o.value)
    ensures Clear(after, g, archive)
  {
    hide Lookup, Right, Alike;
    forall k | k in archive
      ensures Coherent(after, archive[k])
    {
      assert Agree(g, archive[k]) && Coherent(entries, archive[k]);
      var o, p := Lookup(g, c.id), Lookup(archive[k], c.id);
      if p.Some? && p.value.version == c.version {
        AlikeRight(c, o.value, p.value);
      }
    }
  }

  lemma ClearFewer(entries: seq<Cached>, after: seq<Cached>, g: Generation, archive: Archive)
    requires Clear(entries, g, archive) && forall x :: x in after ==> x in entries
    ensures Clear(after, g, archive)
  {
    hide Lookup, Right, Agree;
  }

  lemma ClearTouched(entries: seq<Cached>, index: nat, clock: nat, g: Generation, archive: Archive)
    requires index < |entries| && AllObjects(entries) && Clear(entries, g, archive)
    ensures Clear(entries[index := entries[index].(lastAccess := clock)], g, archive)
  {
    hide Agree, Coherent, AllObjects;
    AgreeSizes(g, g);
    TouchedIsCoherent(entries, index, clock, g);
    forall k | k in archive
      ensures |archive[k].blocks| == |archive[k].entries| && Coherent(entries[index := entries[index].(lastAccess := clock)], archive[k])
    {
      AgreeSizes(g, archive[k]);
      TouchedIsCoherent(entries, index, clock, archive[k]);
    }
  }

  lemma AgreeSizes(g: Generation, h: Generation)
    requires Agree(g, h)
    ensures |g.blocks| == |g.entries| && |h.blocks| == |h.entries|
  {
  }

  lemma DeleteAgrees(pre: Generation, id: ObjectId, post: Generation, h: Generation)
    requires DeleteOutcome(pre, id, post) && Agree(pre, h)
    ensures Agree(post, h)
  {
    hide Lookup, Alike;
  }

  lemma ClearDelete(entries: seq<Cached>, pre: Generation, id: ObjectId, post: Generation, archive: Archive)
    requires Clear(entries, pre, archive) && DeleteOutcome(pre, id, post) && UniqueSlots(entries)
    ensures Clear(Without(entries, id), post, archive)
  {
    hide Lookup, Right, Alike, Without, Agree, Coherent, DeleteOutcome;
    WithoutIsGone(entries, id);
    ClearFewer(entries, Without(entries, id), pre, archive);
    DeleteKeepsCache(entries, pre, id, post);
    DeleteSizes(pre, id, post);
    AgreeSelf(post);
    forall k | k in archive
      ensures Agree(post, archive[k])
    {
      DeleteAgrees(pre, id, post, archive[k]);
    }
  }

  lemma DeleteSizes(pre: Generation, id: ObjectId, post: Generation)
    requires DeleteOutcome(pre, id, post)
    ensures |post.blocks| == |post.entries|
  {
  }

  // ---- Versions handed out again ------------------------------------------------------------------

  /** A request gets a version its object had, with another content, in this generation. */
  ghost predicate HandsOutAgain(h: Generation, pre: Generation, r: PutRequest) {
    var version := NextVersion(pre.entries, r.id);
    && |h.blocks| == |h.entries| && Lookup(h, r.id).Some? && Lookup(h, r.id).value.version == version
    && !Alike(StoredObject(version, BlocksFor(r, version)), Lookup(h, r.id).value)
  }

  /** Some request gets a version that its object had, with another content, in a generation one may come back to. */
  ghost predicate Reissued(archive: Archive, pre: Generation, requests: seq<PutRequest>) {
    exists k, i :: k in archive && 0 <= i < |requests| && HandsOutAgain(archive[k], pre, requests[i])
  }

  lemma PutAgrees(pre: Generation, requests: seq<PutRequest>, post: Generation, h: Generation)
    requires PutOutcome(pre, requests, post) && Agree(pre, h)
    ensures Agree(post, h) <==> forall i :: 0 <= i < |requests| ==> !HandsOutAgain(h, pre, requests[i])
  {
    hide Lookup, Alike, BlocksFor, NextVersion;
    if forall i :: 0 <= i < |requests| ==> !HandsOutAgain(h, pre, requests[i]) {
      forall id
        ensures Lookup(post, id).Some? && Lookup(h, id).Some? && Lookup(post, id).value.version == Lookup(h, id).value.version ==>
                  Alike(Lookup(post, id).value, Lookup(h, id).value)
      {
        if i :| 0 <= i < |requests| && requests[i].id == id {
          assert !HandsOutAgain(h, pre, requests[i]);
        } else {
          assert Lookup(post, id) == Lookup(pre, id);
        }
      }
    } else {
      var i :| 0 <= i < |requests| && HandsOutAgain(h, pre, requests[i]);
      assert Lookup(post, requests[i].id).Some?;
    }
  }

  /** Exactly which batches leave everything clear: without refreshing the cache ... */
  lemma ClearPut(entries: seq<Cached>, pre: Generation, requests: seq<PutRequest>, post: Generation, archive: Archive)
    requires Clear(entries, pre, archive) && PutOutcome(pre, requests, post)
    ensures Clear(entries, post, archive) <==> !Collides(entries, pre, requests) && !Reissued(archive, pre, requests)
  {
    hide Lookup, Right, Alike, Agree, Coherent, Collides, PutOutcome, HandsOutAgain;
    PutSizes(pre, requests, post);
    AgreeSelf(post);
    PutCoherentExactly(entries, pre, requests, post);
    PutAgreesAll(pre, requests, post, archive);
  }

  /** ... and refreshing it. */
  lemma ClearRefresh(entries: seq<Cached>, pre: Generation, r: PutRequest, post: Generation, archive: Archive,
                     after: seq<Cached>, c: Cached)
    requires Clear(entries, pre, archive) && PutOutcome(pre, [r], post) && UniqueSlots(entries)
    requires c.id == r.id && forall x :: x in after ==> x in Without(entries, r.id) || x == c
    requires |post.blocks| == |post.entries|
    requires var o := Lookup(post, c.id); o.Some? && o.value.version == c.version && Right(c, o.value)
    ensures Clear(after, post, archive) <==> !Reissued(archive, pre, [r])
  {
    hide Lookup, Right, Alike, Agree, Coherent, PutOutcome, HandsOutAgain, Without;
    AgreeSelf(post);
    AgreeSizes(pre, pre);
    WithoutIsGone(entries, r.id);
    ClearFewer(entries, Without(entries, r.id), pre, archive);
    PutOthers(entries, pre, r, post);
    PutAgreesAll(pre, [r], post, archive);
    if !Reissued(archive, pre, [r]) {
      ClearInsert(Without(entries, r.id), after, c, post, archive);
    }
  }

  lemma PutSizes(pre: Generation, requests: seq<PutRequest>, post: Generation)
    requires PutOutcome(pre, requests, post)
    ensures |pre.blocks| == |pre.entries| && |post.blocks| == |post.entries|
  {
  }

  lemma PutAgreesAll(pre: Generation, requests: seq<PutRequest>, post: Generation, archive: Archive)
    requires PutOutcome(pre, requests, post) && forall k :: k in archive ==> Agree(pre, archive[k])
    ensures (forall k :: k in archive ==> Agree(post, archive[k])) <==> !Reissued(archive, pre, requests)
  {
    hide Agree, PutOutcome, HandsOutAgain;
    forall k | k in archive
      ensures Agree(post, archive[k]) <==> forall i :: 0 <= i < |requests| ==> !HandsOutAgain(archive[k], pre, requests[i])
    {
      PutAgrees(pre, requests, post, archive[k]);
    }
  }

  // ---- Bytes ------------------------------------------------------------------------------------

  lemma StoredReading(r: PutRequest, version: nat)
    requires !IsZero(r.id) && !IsZero(r.typeId) && version != 0
    ensures AllData(BlocksFor(r, version)) && IsObject(Joined(BlocksFor(r, version)))
    ensures ReadingOf(Joined(BlocksFor(r, version))) == Reading(HeaderFor(r, version), RawBytes(r.payload))
  {
    EncodeRoundTrip(HeaderFor(r, version), r.payload);
  }

  lemma CachedReading(bytes: seq<Cell>, r: PutRequest, version: nat)
    requires !IsZero(r.id) && !IsZero(r.typeId) && version != 0
    requires |CellsFor(r, version)| <= |bytes| && bytes[..|CellsFor(r, version)|] == CellsFor(r, version)
    ensures IsObject(bytes) && ReadingOf(bytes) == Reading(HeaderFor(r, version), RawBytes(r.payload))
  {
    var cells := CellsFor(r, version);
    assert forall i :: 0 <= i < |cells| ==> bytes[i] == cells[i];
    assert bytes[HEADER_SIZE..HEADER_SIZE + |r.payload|] == RawBytes(r.payload);
  }

  lemma RawIsInjective(p: seq<bv8>, q: seq<bv8>)
    requires RawBytes(p) == RawBytes(q)
    ensures p == q
  {
    assert |p| == |RawBytes(p)| == |q|;
    forall i | 0 <= i < |p|
      ensures p[i] == q[i]
    {
      assert RawBytes(p)[i] == Raw(p[i]) && RawBytes(q)[i] == Raw(q[i]);
    }
  }

  /** The bytes a put hands to the cache are those it stored; any other payload would be wrong. */
  lemma FreshlyPut(c: Cached, r: PutRequest, stored: PutRequest)
    requires !IsZero(r.id) && !IsZero(r.typeId) && !IsZero(stored.id) && !IsZero(stored.typeId) && c.version != 0
    requires |CellsFor(r, c.version)| <= |c.bytes| && c.bytes[..|CellsFor(r, c.version)|] == CellsFor(r, c.version)
    ensures Right(c, StoredObject(c.version, BlocksFor(stored, c.version)))
            <==> HeaderFor(r, c.version) == HeaderFor(stored, c.version) && r.payload == stored.payload
  {
    hide CellsFor, BlocksFor, Joined, IsObject, PayloadOf, HeaderOf;
    StoredReading(stored, c.version);
    CachedReading(c.bytes, r, c.version);
    if RawBytes(r.payload) == RawBytes(stored.payload) {
      RawIsInjective(r.payload, stored.payload);
    }
  }

  /**
   * Rollback makes version numbers repeat: the version cached by one put is handed out again
   * by a batch after rolling back, and the slot now answers for the wrong object.
   */
  lemma StaleAfterRollback(base: Generation, first: PutRequest, branch: Generation,
                           batch: seq<PutRequest>, other: Generation, c: Cached)
    requires Sorted(base.entries) && PutOutcome(base, [first], branch) && PutOutcome(base, batch, other)
    requires batch != [] && batch[0].id == first.id && batch[0].payload != first.payload
    requires !IsZero(first.id) && !IsZero(first.typeId) && !IsZero(batch[0].typeId)
    requires c.id == first.id && c.version == NextVersion(base.entries, first.id)
    requires |CellsFor(first, c.version)| <= |c.bytes| && c.bytes[..|CellsFor(first, c.version)|] == CellsFor(first, c.version)
    ensures Coherent([c], branch) && Coherent([c], base) && !Coherent([c], other)
  {
    hide CellsFor, BlocksFor, Lookup, Right, Sorted, Find;
    VersionOfLookup(base, first.id);
    FreshlyPut(c, first, first);
    FreshlyPut(c, first, batch[0]);
    assert [first][0].id == first.id;
    assert Lookup(branch, [first][0].id) == Some(StoredObject(c.version, BlocksFor(first, c.version)));
    assert Lookup(other, batch[0].id) == Some(StoredObject(c.version, BlocksFor(batch[0], c.version)));
    assert c in [c];
  }

  // ---- Reading ----------------------------------------------------------------------------------

  /** What a stored entry says about the generation it is listed in. */
  lemma EntryReads(img: seq<Record>, here: Root, g: Generation, capacity: nat, e: Entry)
    requires OnDisk(img, here, g) && WellFormed(g, capacity) && Find(g.entries, e.id) == Some(e)
    ensures Lookup(g, e.id) == Some(StoredObject(e.version, img[e.first..e.first + e.count]))
    ensures e.count != 0 && FIRST_ALLOCATABLE <= e.first && e.first + e.count <= |img|
    ensures var blocks := img[e.first..e.first + e.count];
            && AllData(blocks) && IsObject(Joined(blocks))
            && HeaderOf(Joined(blocks)).id == e.id && HeaderOf(Joined(blocks)).version == e.version
  {
    hide Find, Lookup, OnDisk, WellFormed, IsObject, AllData, Joined;
    WellFormedFacts(g, capacity);
    FindMeansMember(g.entries, e.id);
    EntriesOfGenerationStored(img, here, g, capacity, e);
  }

  lemma JoinedLength(blocks: seq<Record>)
    requires AllData(blocks)
    ensures |Joined(blocks)| == |blocks| * SECTOR_SIZE
  {
  }

  lemma NotFound(g: Generation, id: ObjectId)
    requires |g.blocks| == |g.entries| && Find(g.entries, id) == None
    ensures Lookup(g, id) == None
  {
  }

  ghost predicate AllObjects(entries: seq<Cached>) {
    forall c :: c in entries ==> IsObject(c.bytes)
  }

  /** The cold path can hold an object only in whole sectors of the transfer buffer. */
  predicate FitsBuffer(sectors: nat, cacheCapacity: nat) {
    sectors <= cacheCapacity / SECTOR_SIZE
  }

  class CachedStore {
    const store: ObjectStore
    const cache: ObjectCache

    ghost predicate Valid()
      reads this, store, store.device, store.allocator.bits, cache, cache.arena
    {
      store.Valid() && cache.Valid() && AllObjects(cache.Entries())
    }

    constructor (store: ObjectStore, arenaCapacity: nat)
      requires store.Valid()
      ensures Valid() && this.store == store && fresh(cache) && fresh(cache.arena) && cache.Entries() == []
    {
      this.store := store;
      this.cache := new ObjectCache(arenaCapacity);
    }

    method ReadExtent(first: nat, count: nat) returns (blocks: seq<Record>)
      requires store.device.Valid() && first + count <= |store.device.durable|
      ensures blocks == store.device.View().cur[first..first + count]
    {
      hide Observe;
      blocks := [];
      while |blocks| < count
        invariant |blocks| <= count
        invariant blocks == store.device.View().cur[first..first + |blocks|]
      {
        var r := store.device.ReadSector(first + |blocks|);
        blocks := blocks + [r];
      }
    }

    /** The table entry and the stored object agree. */
    lemma Listed(e: Entry)
      requires store.Valid() && !store.recoveryRequired && Find(store.table, e.id) == Some(e)
      ensures store.Here() in store.held && |store.Current().blocks| == |store.Current().entries|
      ensures var o := Lookup(store.Current(), e.id);
              && o.Some? && o.value.version == e.version && |o.value.blocks| == e.count
              && AllData(o.value.blocks) && IsObject(Joined(o.value.blocks))
    {
      hide Find, Lookup, OnDisk, WellFormed, IsObject, AllData, Joined, Observe, Safe;
      hide ObjectStore.Durable, ObjectStore.ReadyWith, ObjectStore.GuardedBy;
      store.ReadyFacts();
      store.ReadyTable();
      store.ReadyOnDisk();
      WellFormedFacts(store.Current(), store.capacity);
      EntryReads(store.device.View().cur, store.Here(), store.Current(), store.capacity, e);
    }

    /** Reads from disk, whatever the cache holds. */
    method ColdRead(e: Entry) returns (r: Option<seq<Cell>>)
      requires store.Valid() && !store.recoveryRequired && Find(store.table, e.id) == Some(e)
      ensures store.Here() in store.held && |store.Current().blocks| == |store.Current().entries|
      ensures var o := Lookup(store.Current(), e.id);
              && o.Some? && o.value.version == e.version && |o.value.blocks| == e.count
              && AllData(o.value.blocks) && IsObject(Joined(o.value.blocks))
              && r == (if FitsBuffer(e.count, store.cacheCapacity) then Some(Joined(o.value.blocks)) else None)
    {
      hide Find, Lookup, OnDisk, WellFormed, IsObject, AllData, Joined, Observe, Safe;
      hide ObjectStore.Durable, ObjectStore.ReadyWith, ObjectStore.GuardedBy;
      store.ReadyFacts();
      store.ReadyTable();
      store.ReadyOnDisk();
      WellFormedFacts(store.Current(), store.capacity);
      EntryReads(store.device.View().cur, store.Here(), store.Current(), store.capacity, e);
      if e.count == 0 || e.first < FIRST_ALLOCATABLE || e.first >= |store.device.durable|
         || e.count > |store.device.durable| - e.first || e.count > store.cacheCapacity / SECTOR_SIZE {
        return None;
      }
      var blocks := ReadExtent(e.first, e.count);
      var cells := Joined(blocks);
      if !IsObject(cells) || HeaderOf(cells).id != e.id || HeaderOf(cells).version != e.version {
        return None;
      }
      return Some(cells);
    }

    /** The cache answers only with what is stored. */
    ghost predicate Truthful()
      reads store, cache, cache.arena
    {
      && store.Here() in store.held && |store.Current().blocks| == |store.Current().entries|
      && InArena(cache.slots, cache.arena[..])
      && Coherent(cache.Entries(), store.Current())
    }

    /** Truthful, and no slot runs ahead of the table: what every history without rollback keeps. */
    ghost predicate Unrolled()
      reads store, cache, cache.arena
    {
      Truthful() && Behind(cache.Entries(), store.Current())
    }

    /** Truthful now and after rolling back to any snapshot. */
    ghost predicate Unambiguous()
      reads store, cache, cache.arena
    {
      && store.Here() in store.held && SnapshotsHeld(store.snapshots, store.held)
      && InArena(cache.slots, cache.arena[..])
      && Clear(cache.Entries(), store.Current(), store.Archive())
    }

    lemma Known()
      requires store.Valid() && !store.recoveryRequired
      ensures store.Here() in store.held && store.table == store.Current().entries && Sorted(store.table)
      ensures |store.Current().blocks| == |store.Current().entries|
    {
      hide Sorted, WellFormed, Safe, Observe, OnDisk, SnapshotsHeld, HeldBelow;
      hide ObjectStore.Durable, ObjectStore.ReadyWith, ObjectStore.GuardedBy;
      store.ReadyFacts();
      store.ReadyTable();
      WellFormedFacts(store.Current(), store.capacity);
    }

    /** As truthful or unrolled, but for the slot of one object. */
    ghost predicate TruthfulBut(id: ObjectId)
      reads store, cache, cache.arena
    {
      && store.Here() in store.held && |store.Current().blocks| == |store.Current().entries|
      && InArena(cache.slots, cache.arena[..])
      && Coherent(Without(cache.Entries(), id), store.Current())
    }

    ghost predicate UnrolledBut(id: ObjectId)
      reads store, cache, cache.arena
    {
      TruthfulBut(id) && Behind(Without(cache.Entries(), id), store.Current())
    }

    lemma WeakerBut(id: ObjectId)
      requires cache.Valid()
      ensures Truthful() ==> TruthfulBut(id)
      ensures Unrolled() ==> UnrolledBut(id)
    {
      hide Lookup, Right, Without, Tiles, View;
      WithoutIsGone(cache.Entries(), id);
    }

    /** Some slot answers for this version with these bytes. */
    ghost predicate Caches(id: ObjectId, version: nat, bytes: seq<Cell>)
      requires InArena(cache.slots, cache.arena[..])
      reads cache, cache.arena
    {
      exists c :: c in cache.Entries() && c.id == id && c.version == version
                  && |bytes| <= |c.bytes| && c.bytes[..|bytes|] == bytes
    }

    /** One slot is new or replaced, and others may have gone. */
    ghost predicate Remembers(before: seq<Cached>, id: ObjectId, version: nat, bytes: seq<Cell>)
      requires InArena(cache.slots, cache.arena[..])
      reads cache, cache.arena
    {
      exists c: Cached :: c.id == id && c.version == version && |bytes| <= |c.bytes| && c.bytes[..|bytes|] == bytes
                          && forall x :: x in cache.Entries() ==> x in Without(before, id) || x == c
    }

    /** Caching a right copy of a stored object, which also replaces a slot that was wrong. */
    method Remember(id: ObjectId, version: nat, bytes: seq<Cell>) returns (ok: bool)
      requires Valid() && !store.recoveryRequired && IsObject(bytes)
      modifies cache, cache.arena
      ensures Valid()
      ensures ok <==> Span(|bytes|) <= cache.arena.Length
      ensures !ok ==> cache.Entries() == old(cache.Entries())
      ensures ok ==> Caches(id, version, bytes) && Remembers(old(cache.Entries()), id, version, bytes) && MostRecent(id)
      ensures ok && old(TruthfulBut(id)) && Holds(id, version, bytes) ==> Truthful()
      ensures ok && old(UnrolledBut(id)) && Holds(id, version, bytes) ==> Unrolled()
    {
      hide Coherent, Behind, MakeRoom, Without, Tiles, View, Lookup, IsObject, Safe, Observe;
      hide ObjectStore.Valid;
      ghost var before := cache.Entries();
      ObjectLength(bytes);
      ok := cache.Insert(id, version, bytes);
      if ok {
        InsertedMembers(before, cache.Entries(), id, Span(|bytes|), cache.arena.Length);
        ghost var c := cache.Entries()[|cache.Entries()| - 1];
        NewestIs(|cache.Entries()| - 1);
        PrefixObject(c.bytes, bytes);
        WithoutIsGone(before, id);
        if store.Here() in store.held && |store.Current().blocks| == |store.Current().entries| && Holds(id, version, bytes) {
          RightPrefix(c, bytes, Lookup(store.Current(), id).value);
          if Coherent(Without(before, id), store.Current()) {
            InsertKeepsCache(Without(before, id), cache.Entries(), c, store.Current());
          }
        }
      }
    }

    lemma SlotReads(id: ObjectId, version: nat, bytes: seq<Cell>)
      requires InArena(cache.slots, cache.arena[..]) && Caches(id, version, bytes) && IsObject(bytes)
      ensures AnswersWith(id, version, ReadingOf(bytes))
    {
      hide View, IsObject, PayloadOf, HeaderOf;
      var c :| c in cache.Entries() && c.id == id && c.version == version && |bytes| <= |c.bytes| && c.bytes[..|bytes|] == bytes;
      PrefixObject(c.bytes, bytes);
    }

    /** What was remembered is right, so everything stays clear. */
    lemma RememberedClear(before: seq<Cached>, id: ObjectId, version: nat, bytes: seq<Cell>)
      requires InArena(cache.slots, cache.arena[..]) && Remembers(before, id, version, bytes) && UniqueSlots(before)
      requires Holds(id, version, bytes) && SnapshotsHeld(store.snapshots, store.held)
      requires Clear(before, store.Current(), store.Archive())
      ensures Clear(cache.Entries(), store.Current(), store.Archive())
    {
      hide Clear, Without, View, Lookup, IsObject, Joined, AllData, PayloadOf, HeaderOf, ArchiveOf, SnapshotsHeld;
      var c: Cached :| c.id == id && c.version == version && |bytes| <= |c.bytes| && c.bytes[..|bytes|] == bytes
                       && forall x :: x in cache.Entries() ==> x in Without(before, id) || x == c;
      WithoutIsGone(before, id);
      RightPrefix(c, bytes, Lookup(store.Current(), id).value);
      ClearInsert(before, cache.Entries(), c, store.Current(), store.Archive());
    }

    /** The same for a single put that refreshes its slot. */
    lemma RefreshedClear(before: seq<Cached>, pre: Generation, r: PutRequest, version: nat, bytes: seq<Cell>)
      requires InArena(cache.slots, cache.arena[..]) && Remembers(before, r.id, version, bytes) && UniqueSlots(before)
      requires Holds(r.id, version, bytes) && SnapshotsHeld(store.snapshots, store.held)
      requires PutOutcome(pre, [r], store.Current()) && Clear(before, pre, store.Archive())
      ensures Clear(cache.Entries(), store.Current(), store.Archive()) <==> !Reissued(store.Archive(), pre, [r])
    {
      hide Clear, Without, View, Lookup, IsObject, Joined, AllData, PayloadOf, HeaderOf, ArchiveOf, SnapshotsHeld, PutOutcome, Reissued;
      var c: Cached :| c.id == r.id && c.version == version && |bytes| <= |c.bytes| && c.bytes[..|bytes|] == bytes
                       && forall x :: x in cache.Entries() ==> x in Without(before, r.id) || x == c;
      RightPrefix(c, bytes, Lookup(store.Current(), r.id).value);
      ClearRefresh(before, pre, r, store.Current(), store.Archive(), cache.Entries(), c);
    }

    /**
     * Reads an object, from the cache if the version in the table is there. A truthful cache
     * gives what a cold read would; a cold read needs the object to fit the transfer buffer.
     */
    method Get(id: ObjectId) returns (r: Option<Reading>)
      requires Valid()
      modifies cache, cache.arena
      ensures Valid()
      ensures store.recoveryRequired || IsZero(id) ==> r == None && cache.Entries() == old(cache.Entries())
      ensures !store.recoveryRequired ==>
                store.Here() in store.held && |store.Current().blocks| == |store.Current().entries|
      ensures !store.recoveryRequired && !IsZero(id) ==>
                var o := Lookup(store.Current(), id);
                && (r.Some? <==> o.Some? && (old(Hit(id, o.value.version)) || FitsBuffer(|o.value.blocks|, store.cacheCapacity)))
                && (r.Some? && (old(Truthful()) || !old(Hit(id, o.value.version))) ==>
                      AllData(o.value.blocks) && IsObject(Joined(o.value.blocks))
                      && r.value == ReadingOf(Joined(o.value.blocks)))
      ensures !store.recoveryRequired && !IsZero(id) && Lookup(store.Current(), id).Some? ==>
                forall c :: c in old(cache.Entries()) && c.id == id && c.version == Lookup(store.Current(), id).value.version ==>
                  IsObject(c.bytes) && r == Some(ReadingOf(c.bytes))
      ensures !store.recoveryRequired && r.Some? && Lookup(store.Current(), id).Some? ==>
                var o := Lookup(store.Current(), id).value;
                old(Hit(id, o.version)) || Span(|o.blocks| * SECTOR_SIZE) <= cache.arena.Length ==>
                  AnswersWith(id, o.version, r.value) && MostRecent(id)
      ensures !store.recoveryRequired && old(Truthful()) ==> Truthful()
      ensures !store.recoveryRequired && old(Unrolled()) ==> Unrolled()
      ensures !store.recoveryRequired && old(Unambiguous()) ==> Unambiguous()
    {
      hide Coherent, Behind, Clear, SnapshotsHeld, ArchiveOf, Tiles, View, Lookup, IsObject, Safe, Observe, Joined, AllData, Find, Sorted;
      hide ObjectStore.Valid;
      if store.recoveryRequired {
        return None;
      }
      Known();
      if IsZero(id) {
        return None;
      }
      var found := Find(store.table, id);
      if found.None? {
        NotFound(store.Current(), id);
        return None;
      }
      FindMeansMember(store.table, id);
      Listed(found.value);
      var slot := cache.Lookup(id, found.value.version);
      if slot.Some? {
        ghost var before := cache.Entries();
        ViewAt(cache.slots, cache.arena[..], slot.value);
        CoherentAt(before, store.Current(), slot.value);
        OnlySlot(before, slot.value);
        var s := cache.slots[slot.value];
        r := Some(ReadingOf(cache.arena[s.offset..s.offset + s.length]));
        cache.Touch(slot.value);
        TouchedIsCoherent(before, slot.value, cache.clock, store.Current());
        assert cache.Entries()[slot.value] in cache.Entries();
        NewestIs(slot.value);
        if SnapshotsHeld(store.snapshots, store.held) && Clear(before, store.Current(), store.Archive()) {
          ClearTouched(before, slot.value, cache.clock, store.Current(), store.Archive());
        }
      } else {
        var cells := ColdRead(found.value);
        if cells.None? {
          return None;
        }
        WeakerBut(id);
        JoinedLength(Lookup(store.Current(), id).value.blocks);
        ghost var before := cache.Entries();
        var cached := Remember(id, found.value.version, cells.value);
        if cached {
          SlotReads(id, found.value.version, cells.value);
        }
        if cached && SnapshotsHeld(store.snapshots, store.held) && Clear(before, store.Current(), store.Archive()) {
          RememberedClear(before, id, found.value.version, cells.value);
        }
        r := Some(ReadingOf(cells.value));
      }
    }

    /** The object has a slot, and no other was used since. */
    ghost predicate MostRecent(id: ObjectId)
      requires InArena(cache.slots, cache.arena[..])
      reads cache, cache.arena
    {
      exists c :: c in cache.Entries() && c.id == id && forall x :: x in cache.Entries() ==> x.lastAccess <= c.lastAccess
    }

    lemma NewestIs(i: nat)
      requires cache.Valid() && i < |cache.Entries()| && cache.Entries()[i].lastAccess == cache.clock
      ensures MostRecent(cache.Entries()[i].id)
    {
      hide Tiles, View;
      assert cache.Entries()[i] in cache.Entries();
    }

    /** A slot for this version reads like this. */
    ghost predicate AnswersWith(id: ObjectId, version: nat, reading: Reading)
      requires InArena(cache.slots, cache.arena[..])
      reads cache, cache.arena
    {
      exists c :: c in cache.Entries() && c.id == id && c.version == version && IsObject(c.bytes) && ReadingOf(c.bytes) == reading
    }

    ghost predicate Hit(id: ObjectId, version: nat)
      requires InArena(cache.slots, cache.arena[..])
      reads cache, cache.arena
    {
      exists i :: 0 <= i < |cache.slots| && cache.Entries()[i].id == id && cache.Entries()[i].version == version
    }

    /** The cache has room for the object, so a single put refreshes it. */
    ghost predicate Refreshes(requests: seq<PutRequest>)
    {
      |requests| == 1 && Span(HEADER_SIZE + |requests[0].payload|) <= cache.arena.Length
    }

    /**
     * Stores a batch; a single object is cached as well. The cache stays truthful exactly if
     * it was refreshed or no slot carries a version the batch assigns anew. It stays so for every
     * snapshot exactly if besides no snapshot lists such a version.
     */
    method Put(requests: seq<PutRequest>) returns (result: BatchResult, ghost post: Generation)
      requires Valid()
      modifies store, store.device, store.allocator.bits, cache, cache.arena
      ensures Valid()
      ensures !result.Committed? ==> cache.Entries() == old(cache.Entries())
      ensures !result.Committed? && !store.recoveryRequired ==>
                && store.Here() in store.held && old(store.Here() in store.held) && store.Current() == old(store.Current())
                && SnapshotsHeld(store.snapshots, store.held) && old(SnapshotsHeld(store.snapshots, store.held))
                && store.Archive() == old(store.Archive())
      ensures result.Committed? ==> !store.recoveryRequired && !old(store.recoveryRequired)
      ensures result.Committed? ==> forall i :: 0 <= i < |requests| ==> !IsZero(requests[i].id) && !IsZero(requests[i].typeId)
      ensures result.Committed? && |requests| != 1 ==> cache.Entries() == old(cache.Entries())
      ensures old(store.device.history) <= store.device.history && store.snapshots == old(store.snapshots)
      ensures !old(store.recoveryRequired) && old(store.Admissible(requests)) ==>
                !store.device.FaultedSince(old(|store.device.history|)) ==> result.Committed?
      ensures result.Committed? ==>
                var staged := StageAll(old(store.table), requests);
                var count := |MergeAll(old(store.table), EntriesOf(staged))|;
                && store.generation == old(store.generation) + 1 && |store.table| == count
                && AllFit(old(store.allocator.Bits()), Needs(staged, count))
                && store.allocator.Bits() == FitAll(old(store.allocator.Bits()), Needs(staged, count))
      ensures result.Committed? ==>
                && old(SnapshotsHeld(store.snapshots, store.held)) && SnapshotsHeld(store.snapshots, store.held)
                && store.Archive() == old(store.Archive())
      ensures result.Committed? ==>
                && store.Here() in store.held && store.Current() == post
                && old(store.Here() in store.held) && PutOutcome(old(store.Current()), requests, post)
                && (Refreshes(requests) ==>
                      var r, version := requests[0], NextVersion(old(store.table), requests[0].id);
                      Caches(r.id, version, CellsFor(r, version)) && MostRecent(r.id))
                && (old(Unrolled()) ==> Unrolled())
                && (old(Truthful()) ==>
                      (Truthful() <==> Refreshes(requests) || !Collides(old(cache.Entries()), old(store.Current()), requests)))
                && (old(Unambiguous()) ==>
                      (Unambiguous() <==>
                         && (Refreshes(requests) || !Collides(old(cache.Entries()), old(store.Current()), requests))
                         && !Reissued(old(store.Archive()), old(store.Current()), requests)))
    {
      hide Coherent, Behind, Tiles, View, Lookup, IsObject, Safe, Observe, Joined, AllData, Find, Sorted, PutOutcome, Collides,
           CellsFor, CrashTail, ArchivesOf, ArchiveOf, SnapshotsHeld, Without, Stageable, AllFit, FitAll, Needs, StageAll, MergeAll,
           EntriesOf, Clear, Reissued;
      hide ObjectStore.Valid;
      ghost var entries := cache.Entries();
      if store.recoveryRequired {
        result, post := store.PutMany(requests);
        return;
      }
      Known();
      ghost var pre, truthful, unrolled, clear := store.Current(), Truthful(), Unrolled(), Unambiguous();
      var table := store.table;
      result, post := store.PutMany(requests);
      if !store.recoveryRequired {
        Known();
      }
      if !result.Committed? {
        return;
      }
      StageableRequests(table, requests, store.capacity, store.cacheCapacity);
      if truthful {
        PutCoherentExactly(entries, pre, requests, post);
      }
      if unrolled {
        PutKeepsCache(entries, pre, requests, post);
      }
      if clear {
        ClearPut(entries, pre, requests, post, store.Archive());
      }
      if |requests| == 1 {
        var r := requests[0];
        assert requests == [r];
        var version := NextVersion(table, r.id);
        PutOne(pre, r, post);
        StoredReading(r, version);
        var bytes := CellsFor(r, version);
        CachedReading(bytes, r, version);
        EncodedLength(r, version);
        if truthful {
          PutOthers(entries, pre, r, post);
        }
        var cached := Remember(r.id, version, bytes);
        if clear && cached {
          RefreshedClear(entries, pre, r, version, bytes);
        }
      }
    }

    /** Removes an object and its slot: what the cache knew of the others stays true. */
    method Delete(id: ObjectId) returns (ok: bool, ghost post: Generation)
      requires Valid()
      modifies store, store.device, store.allocator.bits, cache, cache.arena
      ensures Valid()
      ensures cache.Entries() == if ok then Without(old(cache.Entries()), id) else old(cache.Entries())
      ensures !old(store.recoveryRequired) && old(store.Deletable(id)) ==>
                !store.device.FaultedSince(old(|store.device.history|)) ==> ok
      ensures old(store.device.history) <= store.device.history && store.snapshots == old(store.snapshots)
      ensures ok ==>
                && !store.recoveryRequired && store.generation == old(store.generation) + 1 && |old(store.table)| > 0 && |store.table| == |old(store.table)| - 1
                && AllFit(old(store.allocator.Bits()), Needs([], |store.table|))
                && store.allocator.Bits() == FitAll(old(store.allocator.Bits()), Needs([], |store.table|))
      ensures !ok && !store.recoveryRequired ==>
                && store.Here() in store.held && old(store.Here() in store.held) && store.Current() == old(store.Current())
      ensures !store.recoveryRequired ==>
                && SnapshotsHeld(store.snapshots, store.held) && old(SnapshotsHeld(store.snapshots, store.held))
                && store.Archive() == old(store.Archive()) && (old(Unambiguous()) ==> Unambiguous())
      ensures !old(store.recoveryRequired) && ok ==>
                && store.Here() in store.held && store.Current() == post
                && old(store.Here() in store.held) && DeleteOutcome(old(store.Current()), id, post)
                && (old(Truthful()) ==> Truthful())
                && (old(Unrolled()) ==> Unrolled())
    {
      hide Coherent, Behind, Tiles, View, Lookup, IsObject, Safe, Observe, Joined, AllData, Find, Sorted, DeleteOutcome,
           CrashTail, ArchivesOf, ArchiveOf, SnapshotsHeld, Without, Clear, AllFit, FitAll, Needs;
      hide ObjectStore.Valid;
      ghost var entries := cache.Entries();
      if store.recoveryRequired {
        ok, post := store.Delete(id);
        return;
      }
      Known();
      ghost var pre, truthful, clear := store.Current(), Truthful(), Unambiguous();
      ok, post := store.Delete(id);
      if !store.recoveryRequired {
        Known();
      }
      if !ok {
        return;
      }
      if truthful {
        DeleteKeepsCache(entries, pre, id, post);
      }
      if clear {
        ClearDelete(entries, pre, id, post, store.Archive());
      }
      WithoutObjects(entries, id);
      cache.Forget(id);
    }

    /**
     * Returns to a snapshot and leaves the cache as it is. It is truthful afterwards exactly if no
     * slot carries a version the snapshot lists with another content.
     */
    method Rollback(id: nat) returns (ok: bool)
      requires Valid() && !store.recoveryRequired
      modifies store, store.device
      ensures Valid() && cache.Entries() == old(cache.Entries())
      ensures old(store.device.history) <= store.device.history
      ensures old(store.Here() in store.held) && old(SnapshotsHeld(store.snapshots, store.held))
      ensures !store.recoveryRequired ==>
                && store.Here() in store.held && SnapshotsHeld(store.snapshots, store.held) && store.Archive() == old(store.Archive())
                && (!ok ==> store.Current() == old(store.Current())) && (old(Unambiguous()) ==> Unambiguous())
      ensures ok ==>
                && !store.recoveryRequired && store.generation == old(store.generation) + 1 && store.table == store.Current().entries
                && id in old(store.Archive()) && store.Current() == old(store.Archive())[id]
                && |store.Current().blocks| == |store.Current().entries|
                && (Truthful() <==> Coherent(old(cache.Entries()), old(store.Archive())[id]))
      ensures store.recoveryRequired ==> store.device.FaultedSince(old(|store.device.history|))
      ensures id in old(store.Archive()) && old(store.generation) < UINT64_MAX ==>
                !store.device.FaultedSince(old(|store.device.history|)) ==> ok
    {
      hide Coherent, Tiles, View, Clear, CrashTail, ArchivesOf, ArchiveOf, SnapshotsHeld, AllObjects;
      hide ObjectStore.Valid;
      Known();
      ArchiveKnown();
      ghost var entries, g, archive, clear := cache.Entries(), store.Current(), store.Archive(), Unambiguous();
      ok := store.SnapshotRollback(id);
      if !store.recoveryRequired {
        Known();
        ArchiveKnown();
        if ok && clear {
          ClearRollback(entries, g, archive, id);
        }
      }
    }

    lemma ArchiveKnown()
      requires store.Valid() && !store.recoveryRequired
      ensures SnapshotsHeld(store.snapshots, store.held)
    {
      hide Sorted, WellFormed, Safe, Observe, OnDisk, SnapshotsHeld, HeldBelow;
      hide ObjectStore.Durable, ObjectStore.ReadyWith, ObjectStore.GuardedBy;
      store.ReadyFacts();
    }

    /** These bytes read like the stored object of that version. */
    ghost predicate Holds(id: ObjectId, version: nat, bytes: seq<Cell>)
      reads store
    {
      && store.Here() in store.held && |store.Current().blocks| == |store.Current().entries|
      && var o := Lookup(store.Current(), id);
         && o.Some? && o.value.version == version && IsObject(bytes)
         && AllData(o.value.blocks) && IsObject(Joined(o.value.blocks))
         && ReadingOf(bytes) == ReadingOf(Joined(o.value.blocks))
    }
  }

  lemma ViewAt(slots: seq<Slot>, cells: seq<Cell>, i: nat)
    requires InArena(slots, cells) && i < |slots| && AllObjects(View(slots, cells))
    ensures View(slots, cells)[i] == ViewOne(slots[i], cells) && IsObject(ViewOne(slots[i], cells).bytes)
  {
    assert View(slots, cells)[i] in View(slots, cells);
  }

  lemma OnlySlot(entries: seq<Cached>, i: nat)
    requires i < |entries| && UniqueSlots(entries)
    ensures forall c :: c in entries && c.id == entries[i].id ==> c == entries[i]
  {
  }

  lemma CoherentAt(entries: seq<Cached>, g: Generation, i: nat)
    requires i < |entries| && |g.blocks| == |g.entries|
    ensures var c := entries[i];
            var o := Lookup(g, c.id);
            Coherent(entries, g) && o.Some? && o.value.version == c.version ==> Right(c, o.value)
  {
    hide Lookup, Right;
    assert entries[i] in entries;
  }

  lemma TouchedIsCoherent(entries: seq<Cached>, index: nat, clock: nat, g: Generation)
    requires index < |entries| && |g.blocks| == |g.entries| && AllObjects(entries)
    ensures var after := entries[index := entries[index].(lastAccess := clock)];
            && AllObjects(after)
            && (Coherent(entries, g) ==> Coherent(after, g))
            && (Behind(entries, g) ==> Behind(after, g))
  {
    hide Lookup, IsObject, Joined, PayloadOf, HeaderOf;
    var after := entries[index := entries[index].(lastAccess := clock)];
    forall c | c in after
      ensures exists b :: b in entries && b.id == c.id && b.version == c.version && b.bytes == c.bytes
    {
      var i :| 0 <= i < |after| && after[i] == c;
      assert entries[i] in entries && entries[i].id == c.id && entries[i].version == c.version && entries[i].bytes == c.bytes;
    }
  }

  lemma PrefixObject(bytes: seq<Cell>, prefix: seq<Cell>)
    requires IsObject(prefix) && |prefix| <= |bytes| && bytes[..|prefix|] == prefix
    ensures IsObject(bytes) && ReadingOf(bytes) == ReadingOf(prefix)
  {
    assert forall i :: 0 <= i < |prefix| ==> bytes[i] == prefix[i];
  }

  lemma RightPrefix(c: Cached, bytes: seq<Cell>, o: StoredObject)
    requires IsObject(bytes) && |bytes| <= |c.bytes| && c.bytes[..|bytes|] == bytes
    requires AllData(o.blocks) && IsObject(Joined(o.blocks)) && ReadingOf(bytes) == ReadingOf(Joined(o.blocks))
    ensures Right(c, o)
  {
    PrefixObject(c.bytes, bytes);
  }

  lemma ObjectLength(bytes: seq<Cell>)
    requires IsObject(bytes)
    ensures |bytes| >= HEADER_SIZE
  {
  }

  lemma InsertedMembers(before: seq<Cached>, after: seq<Cached>, id: ObjectId, span: nat, capacity: nat)
    requires |after| > 0 && span <= capacity && UniqueSlots(before)
    requires after[..|after| - 1] == MakeRoom(Without(before, id), span, capacity)
    ensures forall x :: x in after ==> x in Without(before, id) || x == after[|after| - 1]
  {
    MakeRoomRemoves(Without(before, id), span, capacity);
    assert after == after[..|after| - 1] + [after[|after| - 1]];
  }
}