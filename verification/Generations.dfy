/** Building the next table generation out of the current one and a written batch. */
module Generations {
  import opened ObjectIds
  import opened ObjectTables
  import opened Layout
  import opened Bitmap
  import opened Requests

  /** The entry's extent is in range and holds an object of that id and version. */
  ghost predicate EntryStored(img: seq<Record>, e: Entry) {
    && IsValidEntry(e)
    && FIRST_ALLOCATABLE <= e.first && e.first + e.count <= |img|
    && IsStored(e, img[e.first..e.first + e.count])
  }

  ghost predicate AllStored(img: seq<Record>, entries: seq<Entry>) {
    forall i :: 0 <= i < |entries| ==> EntryStored(img, entries[i])
  }

  /** The generation the image holds for a table whose entries are all stored. */
  ghost function GenerationOf(img: seq<Record>, entries: seq<Entry>): Generation
    requires AllStored(img, entries)
  {
    Generation(entries, seq(|entries|, i requires 0 <= i < |entries| =>
      img[entries[i].first..entries[i].first + entries[i].count]))
  }

  lemma GenerationIsOnDisk(img: seq<Record>, entries: seq<Entry>, root: Root, capacity: nat)
    requires AllStored(img, entries)
    requires Sorted(entries) && |entries| <= capacity
    requires TableOnDisk(img, root, entries)
    ensures WellFormed(GenerationOf(img, entries), capacity)
    ensures OnDisk(img, root, GenerationOf(img, entries))
  {
  }

  lemma EntriesOfGenerationStored(img: seq<Record>, root: Root, g: Generation, capacity: nat, e: Entry)
    requires OnDisk(img, root, g) && WellFormed(g, capacity) && e in g.entries
    ensures EntryStored(img, e)
    ensures Lookup(g, e.id) == Some(StoredObject(e.version, img[e.first..e.first + e.count]))
  {
    var i :| 0 <= i < |g.entries| && g.entries[i] == e;
    assert ExtentOnDisk(img, g.entries[i], g.blocks[i]);
    LookupAt(g, i);
  }

  lemma LookupGeneration(img: seq<Record>, entries: seq<Entry>, e: Entry)
    requires AllStored(img, entries)
    requires Sorted(entries) && e in entries
    ensures Lookup(GenerationOf(img, entries), e.id) == Some(StoredObject(e.version, img[e.first..e.first + e.count]))
  {
    var i :| 0 <= i < |entries| && entries[i] == e;
    LookupAt(GenerationOf(img, entries), i);
  }

  /** A staged request carries the version and size its object will have. */
  ghost predicate StagedOk(s: Staged, cacheCapacity: nat) {
    && RequestOk(s.request, cacheCapacity)
    && s.version != 0
    && s.count == SectorsFor(HEADER_SIZE + |s.request.payload|)
  }

  lemma StagedBlocks(s: Staged, cacheCapacity: nat)
    requires StagedOk(s, cacheCapacity) && s.first != 0
    ensures |BlocksFor(s.request, s.version)| == s.count != 0
    ensures IsValidEntry(EntryOf(s))
    ensures IsStored(EntryOf(s), BlocksFor(s.request, s.version))
  {
    EncodeRoundTrip(HeaderFor(s.request, s.version), s.request.payload);
    SectorsCover(HEADER_SIZE + |s.request.payload|);
  }

  ghost predicate SameOutside(before: seq<Record>, after: seq<Record>, first: nat, count: nat) {
    |after| == |before|
    && forall s :: 0 <= s < |before| && !(first <= s < first + count) ==> after[s] == before[s]
  }

  ghost predicate SameExcept(before: seq<Record>, after: seq<Record>, placed: seq<Staged>) {
    |after| == |before| && forall s :: 0 <= s < |before| && !InPlaced(placed, s) ==> after[s] == before[s]
  }

  /** Each placed extent holds the bytes of its object. */
  ghost predicate Written(img: seq<Record>, placed: seq<Staged>) {
    forall i :: 0 <= i < |placed| ==>
      && placed[i].first + placed[i].count <= |img|
      && img[placed[i].first..placed[i].first + placed[i].count]
         == BlocksFor(placed[i].request, placed[i].version)
  }

  lemma WrittenNone(img: seq<Record>, placed: seq<Staged>)
    ensures SameExcept(img, img, placed) && Written(img, placed[..0])
  {
  }

  /** Filling one extent leaves the extents before it as they were. */
  lemma WrittenNext(img: seq<Record>, before: seq<Record>, after: seq<Record>, b: seq<bool>,
                    placed: seq<Staged>, index: nat)
    requires index < |placed| && |b| == |img| && PlacedIn(b, placed)
    requires SameExcept(img, before, placed) && Written(before, placed[..index])
    requires SameOutside(before, after, placed[index].first, placed[index].count)
    ensures SameExcept(img, after, placed)
    ensures Written(after, placed[..index])
    ensures (after[placed[index].first..placed[index].first + placed[index].count]
             == BlocksFor(placed[index].request, placed[index].version)) ==> Written(after, placed[..index + 1])
  {
    hide BlocksFor;
  }

  /** The run of sectors a new table generation is written to. */
  function TableRun(root: Root): Staged {
    Staged(PutRequest(ObjectId(0, 0), ObjectId(0, 0), ObjectId(0, 0), ObjectId(0, 0), 0, []), 0, root.sector, root.count)
  }

  /** All runs a batch writes: its extents, and the table unless that is empty. */
  function Runs(placed: seq<Staged>, root: Root): seq<Staged> {
    if root.count == 0 then placed else placed + [TableRun(root)]
  }

  /** Every sector the generation depends on is taken. */
  ghost predicate MarksRoot(bits: seq<bool>, root: Root, entries: seq<Entry>) {
    forall s :: 0 <= s < |bits| && Covers(root, entries, s) ==> bits[s]
  }

  /** The images before and after a batch was written into sectors free in `b`. */
  ghost predicate BatchWritten(img: seq<Record>, after: seq<Record>, b: seq<bool>, placed: seq<Staged>, root: Root) {
    && |b| == |img|
    && PlacedIn(b, Runs(placed, root))
    && SameExcept(img, after, Runs(placed, root))
    && Written(after, placed)
  }

  /** The table written behind the batch leaves the batch as it was. */
  lemma TableWritten(img: seq<Record>, middle: seq<Record>, after: seq<Record>, b: seq<bool>, placed: seq<Staged>, root: Root)
    requires |b| == |img| && PlacedIn(b, Runs(placed, root))
    requires SameExcept(img, middle, placed) && Written(middle, placed)
    requires SameOutside(middle, after, root.sector, root.count)
    ensures BatchWritten(img, after, b, placed, root)
  {
    hide BlocksFor;
    var runs := Runs(placed, root);
    assert forall i :: 0 <= i < |placed| ==> runs[i] == placed[i];
    forall s | 0 <= s < |img| && !InPlaced(runs, s)
      ensures after[s] == img[s]
    {
      assert root.count != 0 ==> !InRun(runs[|placed|], s);
      assert forall i :: 0 <= i < |placed| ==> !InRun(runs[i], s);
    }
    forall i | 0 <= i < |placed|
      ensures after[placed[i].first..placed[i].first + placed[i].count]
              == middle[placed[i].first..placed[i].first + placed[i].count]
    {
      assert FreeRun(b, runs[i].first, runs[i].count);
      forall s | placed[i].first <= s < placed[i].first + placed[i].count
        ensures after[s] == middle[s]
      {
        assert InRun(runs[i], s);
        assert root.count != 0 ==> !InRun(runs[|placed|], s);
      }
    }
  }

  /** Old entries keep their extents: those sectors were taken in `b`, so nothing wrote there. */
  lemma OldEntryKept(img: seq<Record>, after: seq<Record>, b: seq<bool>, placed: seq<Staged>, root: Root,
                     here: Root, pre: Generation, capacity: nat, e: Entry)
    requires BatchWritten(img, after, b, placed, root)
    requires OnDisk(img, here, pre) && WellFormed(pre, capacity) && MarksRoot(b, here, pre.entries)
    requires e in pre.entries
    ensures EntryStored(after, e)
    ensures Lookup(pre, e.id) == Some(StoredObject(e.version, after[e.first..e.first + e.count]))
  {
    EntriesOfGenerationStored(img, here, pre, capacity, e);
    forall s | e.first <= s < e.first + e.count
      ensures after[s] == img[s]
    {
      assert InExtent(e, s);
      assert Covers(here, pre.entries, s);
    }
    assert after[e.first..e.first + e.count] == img[e.first..e.first + e.count];
  }

  lemma NewEntryWritten(img: seq<Record>, after: seq<Record>, b: seq<bool>, placed: seq<Staged>, root: Root,
                        cacheCapacity: nat, i: nat)
    requires BatchWritten(img, after, b, placed, root)
    requires i < |placed| && StagedOk(placed[i], cacheCapacity)
    ensures EntryStored(after, EntryOf(placed[i]))
    ensures after[placed[i].first..placed[i].first + placed[i].count] == BlocksFor(placed[i].request, placed[i].version)
  {
    assert Runs(placed, root)[i] == placed[i];
    assert FreeRun(b, placed[i].first, placed[i].count);
    StagedBlocks(placed[i], cacheCapacity);
  }

  /** Each entry of the candidate table is an old entry or one of the batch. */
  ghost predicate FromBatch(candidate: seq<Entry>, table: seq<Entry>, placed: seq<Staged>) {
    && Sorted(candidate)
    && forall e :: e in candidate ==> e in table || e in EntriesOf(placed)
  }

  /** The next generation is complete on disk once its batch and its table are written. */
  lemma NextGeneration(img: seq<Record>, after: seq<Record>, b: seq<bool>, placed: seq<Staged>, root: Root,
                       here: Root, pre: Generation, capacity: nat, cacheCapacity: nat, candidate: seq<Entry>)
    requires BatchWritten(img, after, b, placed, root)
    requires OnDisk(img, here, pre) && WellFormed(pre, capacity) && MarksRoot(b, here, pre.entries)
    requires forall i :: 0 <= i < |placed| ==> StagedOk(placed[i], cacheCapacity)
    requires FromBatch(candidate, pre.entries, placed) && |candidate| <= capacity
    requires TableOnDisk(after, root, candidate)
    ensures AllStored(after, candidate) && GenerationOf(after, candidate).entries == candidate
    ensures WellFormed(GenerationOf(after, candidate), capacity)
    ensures OnDisk(after, root, GenerationOf(after, candidate))
  {
    forall j | 0 <= j < |candidate|
      ensures EntryStored(after, candidate[j])
    {
      var e := candidate[j];
      assert e in candidate;
      if e in pre.entries {
        OldEntryKept(img, after, b, placed, root, here, pre, capacity, e);
      } else {
        var i :| 0 <= i < |placed| && EntriesOf(placed)[i] == e;
        NewEntryWritten(img, after, b, placed, root, cacheCapacity, i);
      }
    }
    GenerationIsOnDisk(after, candidate, root, capacity);
  }

  /** A stored object has every field and every byte of the request, and this version. */
  ghost predicate Carries(o: StoredObject, r: PutRequest, version: nat) {
    && o.version == version && AllData(o.blocks) && IsObject(Joined(o.blocks))
    && var h, payload := HeaderOf(Joined(o.blocks)), PayloadOf(Joined(o.blocks));
       && h.id == r.id && h.typeId == r.typeId && h.version == version && h.payloadSize == |r.payload|
       && h.creator == r.creator && h.modifier == r.modifier && h.timestamp == r.timestamp
       && |payload| == |r.payload| && forall k :: 0 <= k < |payload| ==> payload[k] == Raw(r.payload[k])
  }

  ghost predicate Carried(g: Generation, r: PutRequest, version: nat)
    requires |g.blocks| == |g.entries|
  {
    Lookup(g, r.id).Some? && Carries(Lookup(g, r.id).value, r, version)
  }

  lemma BlocksCarry(r: PutRequest, version: nat, cacheCapacity: nat)
    requires RequestOk(r, cacheCapacity) && version != 0
    ensures Carries(StoredObject(version, BlocksFor(r, version)), r, version)
  {
    EncodeRoundTrip(HeaderFor(r, version), r.payload);
  }

  /**
   * What a batch does to the logical content: each requested id gets the next version and
   * exactly its request's fields and bytes, every other id keeps its object.
   */
  ghost predicate PutOutcome(pre: Generation, requests: seq<PutRequest>, post: Generation) {
    && |pre.blocks| == |pre.entries| && |post.blocks| == |post.entries|
    && (forall i :: 0 <= i < |requests| ==>
          var version := NextVersion(pre.entries, requests[i].id);
          && Lookup(post, requests[i].id) == Some(StoredObject(version, BlocksFor(requests[i], version)))
          && Carried(post, requests[i], version))
    && (forall id :: (forall i :: 0 <= i < |requests| ==> requests[i].id != id) ==>
          Lookup(post, id) == Lookup(pre, id))
  }

  lemma VersionOfLookup(g: Generation, id: ObjectId)
    requires |g.blocks| == |g.entries| && Sorted(g.entries)
    ensures NextVersion(g.entries, id) == if Lookup(g, id).Some? then Lookup(g, id).value.version + 1 else 1
  {
    hide Rank;
  }

  /**
   * What a batch means, field by field: every request reads back with its own id, type, creator,
   * modifier, timestamp and bytes, under the version after the one its object had.
   */
  lemma PutMeans(pre: Generation, requests: seq<PutRequest>, post: Generation, i: nat)
    requires PutOutcome(pre, requests, post) && Sorted(pre.entries) && i < |requests|
    ensures var r, before, after := requests[i], Lookup(pre, requests[i].id), Lookup(post, requests[i].id);
            && after.Some? && after.value.version == (if before.Some? then before.value.version + 1 else 1)
            && AllData(after.value.blocks) && IsObject(Joined(after.value.blocks))
            && var h, payload := HeaderOf(Joined(after.value.blocks)), PayloadOf(Joined(after.value.blocks));
               && h.id == r.id && h.typeId == r.typeId && h.creator == r.creator && h.modifier == r.modifier
               && h.timestamp == r.timestamp && h.version == after.value.version && h.payloadSize == |r.payload| == |payload|
               && forall k :: 0 <= k < |payload| ==> payload[k] == Raw(r.payload[k])
  {
    hide Lookup, BlocksFor, Sorted, Joined, IsObject, AllData, PayloadOf, HeaderOf;
    VersionOfLookup(pre, requests[i].id);
    assert Carried(post, requests[i], NextVersion(pre.entries, requests[i].id));
  }

  /** The batch as it was asked for, written over a durable table. */
  ghost predicate BatchAsked(img: seq<Record>, after: seq<Record>, b: seq<bool>, placed: seq<Staged>, root: Root, here: Root,
                             pre: Generation, capacity: nat, cacheCapacity: nat, requests: seq<PutRequest>) {
    && BatchWritten(img, after, b, placed, root)
    && OnDisk(img, here, pre) && WellFormed(pre, capacity) && MarksRoot(b, here, pre.entries)
    && |placed| == |requests| && DistinctIds(requests)
    && (forall i :: 0 <= i < |placed| ==>
          StagedOk(placed[i], cacheCapacity) && placed[i].request == requests[i]
          && placed[i].version == NextVersion(pre.entries, requests[i].id))
    && AllStored(after, MergeAll(pre.entries, EntriesOf(placed)))
  }

  lemma PutWritten(img: seq<Record>, after: seq<Record>, b: seq<bool>, placed: seq<Staged>, root: Root,
                   here: Root, pre: Generation, capacity: nat, cacheCapacity: nat, requests: seq<PutRequest>, i: nat)
    requires BatchAsked(img, after, b, placed, root, here, pre, capacity, cacheCapacity, requests) && i < |requests|
    ensures Lookup(GenerationOf(after, MergeAll(pre.entries, EntriesOf(placed))), requests[i].id)
            == Some(StoredObject(placed[i].version, BlocksFor(requests[i], placed[i].version)))
    ensures Carried(GenerationOf(after, MergeAll(pre.entries, EntriesOf(placed))), requests[i], placed[i].version)
  {
    hide EntryStored, IsStored, BlocksFor, BatchWritten, OnDisk, WellFormed, MarksRoot, MergeAll, Sorted, Lookup, Carries;
    BlocksCarry(requests[i], placed[i].version, cacheCapacity);
    var es := EntriesOf(placed);
    WellFormedFacts(pre, capacity);
    MergeAllMeaning(pre.entries, es);
    NewEntryWritten(img, after, b, placed, root, cacheCapacity, i);
    assert es[i] in MergeAll(pre.entries, es);
    LookupGeneration(after, MergeAll(pre.entries, es), es[i]);
  }

  lemma PutOutcomeHolds(img: seq<Record>, after: seq<Record>, b: seq<bool>, placed: seq<Staged>, root: Root,
                        here: Root, pre: Generation, capacity: nat, cacheCapacity: nat, requests: seq<PutRequest>)
    requires BatchAsked(img, after, b, placed, root, here, pre, capacity, cacheCapacity, requests)
    ensures PutOutcome(pre, requests, GenerationOf(after, MergeAll(pre.entries, EntriesOf(placed))))
  {
    hide StagedOk, EntryStored, IsStored, BlocksFor, BatchWritten, OnDisk, WellFormed, MarksRoot, MergeAll, Sorted, Lookup, Carried;
    var es := EntriesOf(placed);
    var candidate := MergeAll(pre.entries, es);
    WellFormedFacts(pre, capacity);
    MergeAllMeaning(pre.entries, es);
    var post := GenerationOf(after, candidate);
    forall i | 0 <= i < |requests|
      ensures Lookup(post, requests[i].id) == Some(StoredObject(placed[i].version, BlocksFor(requests[i], placed[i].version)))
      ensures Carried(post, requests[i], placed[i].version)
    {
      PutWritten(img, after, b, placed, root, here, pre, capacity, cacheCapacity, requests, i);
    }
    forall id | forall i :: 0 <= i < |requests| ==> requests[i].id != id
      ensures Lookup(post, id) == Lookup(pre, id)
    {
      assert forall i :: 0 <= i < |es| ==> es[i].id == requests[i].id;
      SameElsewhere(img, after, b, placed, root, here, pre, capacity, candidate, id);
    }
  }

  /** A placed batch is fit to be written, and the table it yields to be published. */
  lemma BatchReady(table: seq<Entry>, requests: seq<PutRequest>, placed: seq<Staged>, capacity: nat, cacheCapacity: nat)
    requires Sorted(table) && Stageable(table, requests, capacity, cacheCapacity)
    requires PlacedAs(placed, StageAll(table, requests))
    ensures forall i :: 0 <= i < |placed| ==> StagedOk(placed[i], cacheCapacity)
    ensures FromBatch(MergeAll(table, EntriesOf(placed)), table, placed)
    ensures |MergeAll(table, EntriesOf(placed))| == |MergeAll(table, EntriesOf(StageAll(table, requests)))| <= capacity
  {
    hide MergeAll, Sorted, Find;
    PlacedTable(table, requests, placed);
  }

  /** However the batch reached the disk, it had the outcome it was asked for. */
  lemma PutDone(b: seq<bool>, placed: seq<Staged>, root: Root, here: Root, pre: Generation, capacity: nat,
                cacheCapacity: nat, requests: seq<PutRequest>, post: Generation)
    requires exists img, after ::
               && OnDisk(img, here, pre) && BatchWritten(img, after, b, placed, root)
               && AllStored(after, MergeAll(pre.entries, EntriesOf(placed)))
               && post == GenerationOf(after, MergeAll(pre.entries, EntriesOf(placed)))
    requires WellFormed(pre, capacity) && MarksRoot(b, here, pre.entries)
    requires Stageable(pre.entries, requests, capacity, cacheCapacity) && PlacedAs(placed, StageAll(pre.entries, requests))
    ensures PutOutcome(pre, requests, post)
  {
    hide OnDisk, BatchWritten, AllStored, GenerationOf, MergeAll, MarksRoot, PutOutcome, Sorted, Find, WellFormed;
    var img, after :| OnDisk(img, here, pre) && BatchWritten(img, after, b, placed, root)
                      && AllStored(after, MergeAll(pre.entries, EntriesOf(placed)))
                      && post == GenerationOf(after, MergeAll(pre.entries, EntriesOf(placed)));
    WellFormedFacts(pre, capacity);
    BatchReady(pre.entries, requests, placed, capacity, cacheCapacity);
    PlacedTable(pre.entries, requests, placed);
    PutOutcomeHolds(img, after, b, placed, root, here, pre, capacity, cacheCapacity, requests);
  }

  lemma DeleteDone(b: seq<bool>, root: Root, here: Root, pre: Generation, capacity: nat, id: ObjectId, post: Generation)
    requires exists img, after ::
               && OnDisk(img, here, pre) && BatchWritten(img, after, b, [], root)
               && AllStored(after, Removed(pre.entries, id)) && post == GenerationOf(after, Removed(pre.entries, id))
    requires WellFormed(pre, capacity) && MarksRoot(b, here, pre.entries) && Find(pre.entries, id).Some?
    ensures DeleteOutcome(pre, id, post)
  {
    hide OnDisk, BatchWritten, AllStored, GenerationOf, MarksRoot, DeleteOutcome, Sorted, WellFormed;
    var img, after :| OnDisk(img, here, pre) && BatchWritten(img, after, b, [], root)
                      && AllStored(after, Removed(pre.entries, id)) && post == GenerationOf(after, Removed(pre.entries, id));
    DeleteOutcomeHolds(img, after, b, root, here, pre, capacity, id);
  }

  /** Removing an entry yields a table that needs no new extent. */
  lemma RemovedReady(table: seq<Entry>, id: ObjectId)
    requires Sorted(table) && Find(table, id).Some?
    ensures FromBatch(Removed(table, id), table, []) && |Removed(table, id)| == |table| - 1
  {
    RemovedMeaning(table, id);
  }

  lemma WellFormedFacts(g: Generation, capacity: nat)
    requires WellFormed(g, capacity)
    ensures Sorted(g.entries) && |g.blocks| == |g.entries| <= capacity
  {
  }

  /** An id whose old entries are exactly its candidate entries keeps its object. */
  lemma SameElsewhere(img: seq<Record>, after: seq<Record>, b: seq<bool>, placed: seq<Staged>, root: Root,
                      here: Root, pre: Generation, capacity: nat, candidate: seq<Entry>, id: ObjectId)
    requires BatchWritten(img, after, b, placed, root)
    requires OnDisk(img, here, pre) && WellFormed(pre, capacity) && MarksRoot(b, here, pre.entries)
    requires AllStored(after, candidate) && Sorted(candidate)
    requires forall e: Entry :: e.id == id ==> (e in candidate <==> e in pre.entries)
    ensures Lookup(GenerationOf(after, candidate), id) == Lookup(pre, id)
  {
    hide EntryStored, IsStored, BatchWritten, OnDisk;
    var post := GenerationOf(after, candidate);
    FindMeansMember(candidate, id);
    FindMeansMember(pre.entries, id);
    if Find(pre.entries, id).Some? {
      var e := Find(pre.entries, id).value;
      OldEntryKept(img, after, b, placed, root, here, pre, capacity, e);
      LookupGeneration(after, candidate, e);
    }
  }

  lemma DeleteOutcomeHolds(img: seq<Record>, after: seq<Record>, b: seq<bool>, root: Root,
                           here: Root, pre: Generation, capacity: nat, id: ObjectId)
    requires BatchWritten(img, after, b, [], root)
    requires OnDisk(img, here, pre) && WellFormed(pre, capacity) && MarksRoot(b, here, pre.entries)
    requires Find(pre.entries, id).Some?
    requires AllStored(after, Removed(pre.entries, id))
    ensures DeleteOutcome(pre, id, GenerationOf(after, Removed(pre.entries, id)))
  {
    hide EntryStored, IsStored, BatchWritten, OnDisk;
    var candidate := Removed(pre.entries, id);
    RemovedMeaning(pre.entries, id);
    FindMeansMember(candidate, id);
    forall other | other != id
      ensures Lookup(GenerationOf(after, candidate), other) == Lookup(pre, other)
    {
      SameElsewhere(img, after, b, [], root, here, pre, capacity, candidate, other);
    }
  }

  /** What a delete does: that id is gone, every other id keeps its object. */
  ghost predicate DeleteOutcome(pre: Generation, id: ObjectId, post: Generation) {
    && |pre.blocks| == |pre.entries| && |post.blocks| == |post.entries|
    && Lookup(pre, id).Some? && Lookup(post, id) == None
    && (forall other :: other != id ==> Lookup(post, other) == Lookup(pre, other))
  }
}
