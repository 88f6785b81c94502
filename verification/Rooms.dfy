/** When a store has room for what is still to come. */
module Rooms {
  import opened ObjectIds
  import opened ObjectTables
  import opened Layout
  import opened Bitmap
  import opened Requests
  import opened Generations
  import opened ObjectStores
  import opened CachedStores

  /** A free tail of so many sectors. */
  ghost predicate Roomy(b: seq<bool>, sectors: nat) {
    exists f: nat :: Spare(b, f) && f + sectors <= |b|
  }

  /** No object is closer than `puts` versions to the last one. */
  ghost predicate Versions(table: seq<Entry>, puts: nat) {
    forall id: ObjectId :: NextVersion(table, id) + puts <= UINT64_MAX
  }

  function ObjectSectors(requests: seq<PutRequest>): nat {
    if requests == [] then 0 else SectorsFor(HEADER_SIZE + |requests[0].payload|) + ObjectSectors(requests[1..])
  }

  ghost predicate Acceptable(requests: seq<PutRequest>, cacheCapacity: nat) {
    && 0 < |requests| <= BATCH_MAX && DistinctIds(requests)
    && forall i :: 0 <= i < |requests| ==> RequestOk(requests[i], cacheCapacity)
  }

  /** What makes requests acceptable, written out. */
  lemma AcceptableExactly(requests: seq<PutRequest>, cacheCapacity: nat)
    ensures Acceptable(requests, cacheCapacity) <==>
            && 1 <= |requests| <= 8
            && (forall i :: 0 <= i < |requests| ==>
                  && !(requests[i].id.high == 0 && requests[i].id.low == 0) && !(requests[i].typeId.high == 0 && requests[i].typeId.low == 0)
                  && 128 + |requests[i].payload| <= cacheCapacity)
            && (forall i, j :: 0 <= i < |requests| && 0 <= j < |requests| && i != j ==> requests[i].id != requests[j].id)
  {
  }

  /** So a batch is admissible exactly if it is acceptable, no version runs out, and table and sectors have room. */
  lemma AdmissibleExactly(store: ObjectStore, requests: seq<PutRequest>)
    ensures store.Admissible(requests) <==>
            && Acceptable(requests, store.cacheCapacity) && store.generation < 0xFFFF_FFFF_FFFF_FFFF
            && (forall i :: 0 <= i < |requests| ==> NextVersion(store.table, requests[i].id) <= 0xFFFF_FFFF_FFFF_FFFF)
            && var count := |MergeAll(store.table, EntriesOf(StageAll(store.table, requests)))|;
               count <= store.capacity && AllFit(store.allocator.Bits(), Needs(StageAll(store.table, requests), count))
  {
    hide MergeAll, AllFit, Needs, NextVersion;
  }

  lemma {:induction false} StagedSum(table: seq<Entry>, requests: seq<PutRequest>, count: nat)
    ensures Sum(Needs(StageAll(table, requests), count)) == ObjectSectors(requests) + count
    ensures forall i :: 0 <= i < |Needs(StageAll(table, requests), count)| ==> Needs(StageAll(table, requests), count)[i] != 0
    decreases |requests|
  {
    var needs := Needs(StageAll(table, requests), count);
    if requests == [] {
      assert needs == if count == 0 then [] else [count];
      assert [count][1..] == [];
    } else {
      StagedSum(table, requests[1..], count);
      assert needs[1..] == Needs(StageAll(table, requests[1..]), count);
      assert needs[0] == SectorsFor(HEADER_SIZE + |requests[0].payload|);
    }
  }

  /** A batch of acceptable requests is admissible where there is room, and takes no more than it needs. */
  lemma RoomAdmits(store: ObjectStore, requests: seq<PutRequest>, sectors: nat)
    requires Sorted(store.table) && Acceptable(requests, store.cacheCapacity) && store.generation < UINT64_MAX
    requires |store.table| + |requests| <= store.capacity && Versions(store.table, 0)
    requires Roomy(store.allocator.Bits(), ObjectSectors(requests) + |store.table| + |requests| + sectors)
    ensures store.Admissible(requests)
    ensures var staged := StageAll(store.table, requests);
            var count := |MergeAll(store.table, EntriesOf(staged))|;
            && count <= |store.table| + |requests| && AllFit(store.allocator.Bits(), Needs(staged, count))
            && Roomy(FitAll(store.allocator.Bits(), Needs(staged, count)), sectors)
  {
    hide Sorted, Rank, MergeAll, AllFit, FitAll, Needs, NextVersion;
    var staged := StageAll(store.table, requests);
    var count := |MergeAll(store.table, EntriesOf(staged))|;
    MergeBound(store.table, EntriesOf(staged));
    var b := store.allocator.Bits();
    var f: nat :| Spare(b, f) && f + (ObjectSectors(requests) + |store.table| + |requests| + sectors) <= |b|;
    StagedSum(store.table, requests, count);
    SpareFits(b, f, Needs(staged, count));
    assert f + Sum(Needs(staged, count)) + sectors <= |b|;
  }

  /** A table alone. */
  lemma RoomForTable(b: seq<bool>, count: nat, sectors: nat)
    requires Roomy(b, count + sectors)
    ensures AllFit(b, Needs([], count)) && Roomy(FitAll(b, Needs([], count)), sectors)
  {
    hide AllFit, FitAll;
    var f: nat :| Spare(b, f) && f + (count + sectors) <= |b|;
    var needs := Needs([], count);
    assert needs == if count == 0 then [] else [count];
    assert Sum(needs) == count by {
      assert [count][1..] == [];
    }
    SpareFits(b, f, needs);
    assert f + count + sectors <= |b|;
  }

  /** A deletion raises no version. */
  lemma VersionsAfterDelete(pre: Generation, id: ObjectId, post: Generation, puts: nat)
    requires DeleteOutcome(pre, id, post) && Sorted(pre.entries) && Sorted(post.entries) && Versions(pre.entries, puts)
    ensures Versions(post.entries, puts)
  {
    hide Lookup, Sorted, Find;
    forall other: ObjectId
      ensures NextVersion(post.entries, other) + puts <= UINT64_MAX
    {
      VersionOfLookup(pre, other);
      VersionOfLookup(post, other);
      assert NextVersion(pre.entries, other) + puts <= UINT64_MAX;
    }
  }

  lemma {:induction false} MergeBound(table: seq<Entry>, es: seq<Entry>)
    ensures |MergeAll(table, es)| <= |table| + |es|
    decreases |es|
  {
    if es != [] {
      MergeBound(table, es[..|es| - 1]);
    }
  }

  /** A batch moves every version by at most one. */
  lemma VersionsAfter(pre: Generation, requests: seq<PutRequest>, post: Generation, puts: nat)
    requires PutOutcome(pre, requests, post) && Sorted(pre.entries) && Sorted(post.entries) && Versions(pre.entries, puts + 1)
    ensures Versions(post.entries, puts)
  {
    hide Lookup, Sorted, Find, BlocksFor;
    forall id: ObjectId
      ensures NextVersion(post.entries, id) + puts <= UINT64_MAX
    {
      VersionOfLookup(pre, id);
      VersionOfLookup(post, id);
      assert NextVersion(pre.entries, id) + (puts + 1) <= UINT64_MAX;
      if i :| 0 <= i < |requests| && requests[i].id == id {
        assert Lookup(post, requests[i].id).Some?;
      } else {
        assert Lookup(post, id) == Lookup(pre, id);
      }
    }
  }

  lemma FewerVersions(table: seq<Entry>, puts: nat, fewer: nat)
    requires Versions(table, puts) && fewer <= puts
    ensures Versions(table, fewer)
  {
    hide NextVersion;
  }

  lemma LessRoom(b: seq<bool>, sectors: nat, less: nat)
    requires Roomy(b, sectors) && less <= sectors
    ensures Roomy(b, less)
  {
    var f: nat :| Spare(b, f) && f + sectors <= |b|;
    assert f + less <= |b|;
  }
}
