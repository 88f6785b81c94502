/** Put requests: how a batch becomes table entries, extents and object bytes. */
module Requests {
  import opened ObjectIds
  import opened ObjectTables
  import opened Layout
  import opened Bitmap

  const BATCH_MAX: nat := 8

  datatype PutRequest = PutRequest(id: ObjectId, typeId: ObjectId, creator: ObjectId, modifier: ObjectId,
                                   timestamp: nat, payload: seq<bv8>)

  /** A request with its version and, once allocated, its extent. */
  datatype Staged = Staged(request: PutRequest, version: nat, first: nat, count: nat)

  predicate RequestOk(r: PutRequest, cacheCapacity: nat) {
    && !IsZero(r.id) && !IsZero(r.typeId)
    && HEADER_SIZE + |r.payload| <= cacheCapacity
  }

  predicate DistinctIds(requests: seq<PutRequest>) {
    forall i, j :: 0 <= i < j < |requests| ==> requests[i].id != requests[j].id
  }

  /** One past the version in the table; versions start at one. */
  function NextVersion(table: seq<Entry>, id: ObjectId): nat {
    var found := Find(table, id);
    if found.None? then 1 else found.value.version + 1
  }

  function HeaderFor(r: PutRequest, version: nat): Header {
    Header(r.id, r.typeId, version, |r.payload|, r.creator, r.modifier, r.timestamp)
  }

  function CellsFor(r: PutRequest, version: nat): seq<Cell> {
    Encode(HeaderFor(r, version), r.payload)
  }

  function BlocksFor(r: PutRequest, version: nat): seq<Record> {
    Blocks(CellsFor(r, version))
  }

  function StageOne(table: seq<Entry>, r: PutRequest): Staged {
    Staged(r, NextVersion(table, r.id), FIRST_ALLOCATABLE, SectorsFor(HEADER_SIZE + |r.payload|))
  }

  function EntryOf(s: Staged): Entry {
    Entry(s.request.id, s.version, s.first, s.count)
  }

  function EntriesOf(staged: seq<Staged>): seq<Entry> {
    seq(|staged|, i requires 0 <= i < |staged| => EntryOf(staged[i]))
  }

  /** The table after upserting each entry in turn. */
  function MergeAll(table: seq<Entry>, es: seq<Entry>): seq<Entry>
    decreases |es|
  {
    if es == [] then table
    else Upserted(MergeAll(table, es[..|es| - 1]), es[|es| - 1])
  }

  ghost predicate DistinctEntries(es: seq<Entry>) {
    forall i, j :: 0 <= i < j < |es| ==> es[i].id != es[j].id
  }

  /** Upserting a batch keeps the order and replaces exactly the batch's ids. */
  lemma {:induction false} MergeAllMeaning(table: seq<Entry>, es: seq<Entry>)
    requires Sorted(table) && DistinctEntries(es)
    ensures Sorted(MergeAll(table, es))
    ensures forall x :: x in MergeAll(table, es)
                        <==> x in es || (x in table && forall i :: 0 <= i < |es| ==> es[i].id != x.id)
    decreases |es|
  {
    if es != [] {
      var n := |es| - 1;
      var front, last := es[..n], es[n];
      MergeAllMeaning(table, front);
      UpsertedMeaning(MergeAll(table, front), last);
      forall x
        ensures x in MergeAll(table, es)
                <==> x in es || (x in table && forall i :: 0 <= i < |es| ==> es[i].id != x.id)
      {
        assert es == front + [last];
        assert forall i :: 0 <= i < n ==> front[i] == es[i];
        if x in front {
          var i :| 0 <= i < n && front[i] == x;
          assert es[i].id != es[n].id;
        }
      }
    }
  }

  /** A longer batch never gives a shorter table, and only ids decide the length. */
  lemma {:induction false} MergeAllLength(table: seq<Entry>, es: seq<Entry>, fs: seq<Entry>)
    requires Sorted(table) && DistinctEntries(es) && |fs| == |es|
    requires forall i :: 0 <= i < |es| ==> es[i].id == fs[i].id
    ensures |MergeAll(table, es)| == |MergeAll(table, fs)| >= |table|
    ensures forall id :: Find(MergeAll(table, es), id).Some? <==> Find(MergeAll(table, fs), id).Some?
    decreases |es|
  {
    if es != [] {
      var n := |es| - 1;
      MergeAllLength(table, es[..n], fs[..n]);
      var a, b := MergeAll(table, es[..n]), MergeAll(table, fs[..n]);
      MergeAllMeaning(table, es[..n]);
      MergeAllMeaning(table, fs[..n]);
      UpsertedMeaning(a, es[n]);
      UpsertedMeaning(b, fs[n]);
      forall id
        ensures Find(MergeAll(table, es), id).Some? <==> Find(MergeAll(table, fs), id).Some?
      {
        FindAfterUpsert(a, es[n], id);
        FindAfterUpsert(b, fs[n], id);
      }
    }
  }

  lemma FindAfterUpsert(t: seq<Entry>, e: Entry, id: ObjectId)
    requires Sorted(t)
    ensures Find(Upserted(t, e), id) == if id == e.id then Some(e) else Find(t, id)
  {
    UpsertedMeaning(t, e);
    FindMeansMember(t, id);
    FindMeansMember(Upserted(t, e), id);
  }

  function StageAll(table: seq<Entry>, requests: seq<PutRequest>): seq<Staged> {
    seq(|requests|, i requires 0 <= i < |requests| => StageOne(table, requests[i]))
  }

  /** A batch the table can take: valid, distinct requests that fit its capacity. */
  ghost predicate Stageable(table: seq<Entry>, requests: seq<PutRequest>, capacity: nat, cacheCapacity: nat) {
    && DistinctIds(requests)
    && (forall i :: 0 <= i < |requests| ==>
          RequestOk(requests[i], cacheCapacity) && NextVersion(table, requests[i].id) <= UINT64_MAX)
    && |MergeAll(table, EntriesOf(StageAll(table, requests)))| <= capacity
  }

  lemma {:induction false} MergeMonotone(table: seq<Entry>, es: seq<Entry>, k: nat)
    requires Sorted(table) && DistinctEntries(es) && k <= |es|
    ensures |MergeAll(table, es[..k])| <= |MergeAll(table, es)|
    decreases |es| - k
  {
    if k == |es| {
      assert es[..k] == es;
    } else {
      MergeMonotone(table, es, k + 1);
      assert es[..k + 1][..k] == es[..k];
      MergeAllMeaning(table, es[..k]);
      UpsertedMeaning(MergeAll(table, es[..k]), es[k]);
    }
  }

  lemma StagedPrefix(table: seq<Entry>, requests: seq<PutRequest>, k: nat)
    requires k < |requests|
    ensures EntriesOf(StageAll(table, requests))[..k] == EntriesOf(StageAll(table, requests[..k]))
    ensures EntriesOf(StageAll(table, requests[..k + 1]))
            == EntriesOf(StageAll(table, requests[..k])) + [EntryOf(StageOne(table, requests[k]))]
    ensures StageAll(table, requests[..k + 1]) == StageAll(table, requests[..k]) + [StageOne(table, requests[k])]
  {
  }

  lemma StageStep(table: seq<Entry>, requests: seq<PutRequest>, k: nat)
    requires Sorted(table) && k < |requests| && DistinctIds(requests[..k + 1])
    ensures var merged := MergeAll(table, EntriesOf(StageAll(table, requests[..k])));
            var e := EntryOf(StageOne(table, requests[k]));
            && Sorted(merged)
            && MergeAll(table, EntriesOf(StageAll(table, requests[..k + 1]))) == Upserted(merged, e)
            && |Upserted(merged, e)| == |merged| + (if Find(merged, e.id).Some? then 0 else 1)
  {
    StagedPrefix(table, requests, k);
    var es := EntriesOf(StageAll(table, requests[..k]));
    assert forall i :: 0 <= i < k ==> es[i].id == requests[..k + 1][i].id;
    MergeAllMeaning(table, es);
    UpsertedMeaning(MergeAll(table, es), EntryOf(StageOne(table, requests[k])));
    assert EntriesOf(StageAll(table, requests[..k + 1]))[..k] == es;
  }

  method Repeats(requests: seq<PutRequest>, index: nat) returns (repeated: bool)
    requires index < |requests|
    ensures repeated <==> exists i :: 0 <= i < index && requests[i].id == requests[index].id
  {
    var earlier := 0;
    while earlier < index
      invariant 0 <= earlier <= index
      invariant forall i :: 0 <= i < earlier ==> requests[i].id != requests[index].id
    {
      if requests[earlier].id == requests[index].id {
        return true;
      }
      earlier := earlier + 1;
    }
    return false;
  }

  /** The staging pass: validate, reject duplicates, pick versions, check capacity. */
  method Stage(table: seq<Entry>, requests: seq<PutRequest>, capacity: nat, cacheCapacity: nat)
    returns (ok: bool, staged: seq<Staged>)
    requires Sorted(table) && |table| <= capacity
    ensures ok <==> Stageable(table, requests, capacity, cacheCapacity)
    ensures ok ==> staged == StageAll(table, requests)
  {
    hide MergeAll, Upserted, Sorted, EntriesOf, Find, RequestOk;
    staged := [];
    var candidate := table;
    assert candidate == MergeAll(table, EntriesOf(staged)) by { MergeNothing(table); }
    var index := 0;
    while index < |requests|
      invariant 0 <= index <= |requests|
      invariant staged == StageAll(table, requests[..index])
      invariant candidate == MergeAll(table, EntriesOf(staged)) && |candidate| <= capacity
      invariant DistinctIds(requests[..index])
      invariant forall i :: 0 <= i < index ==>
                  RequestOk(requests[i], cacheCapacity) && NextVersion(table, requests[i].id) <= UINT64_MAX
    {
      var request := requests[index];
      if !RequestOk(request, cacheCapacity) {
        return false, [];
      }
      var repeated := Repeats(requests, index);
      if repeated {
        return false, [];
      }
      var one := StageOne(table, request);
      if one.version > UINT64_MAX {
        return false, [];
      }
      StageStep(table, requests, index);
      StagedPrefix(table, requests, index);
      if Find(candidate, request.id).None? && |candidate| == capacity {
        TooFull(table, requests, index, capacity, cacheCapacity);
        return false, [];
      }
      staged := staged + [one];
      candidate := Upserted(candidate, EntryOf(one));
      index := index + 1;
    }
    assert requests[..index] == requests;
    return true, staged;
  }

  lemma MergeNothing(table: seq<Entry>)
    ensures MergeAll(table, EntriesOf([])) == table
  {
  }

  /** A prefix that overflows the table rules out the whole batch. */
  lemma TooFull(table: seq<Entry>, requests: seq<PutRequest>, index: nat, capacity: nat, cacheCapacity: nat)
    requires Sorted(table) && index < |requests|
    requires |MergeAll(table, EntriesOf(StageAll(table, requests[..index + 1])))| > capacity
    ensures !Stageable(table, requests, capacity, cacheCapacity)
  {
    if DistinctIds(requests) {
      var es := EntriesOf(StageAll(table, requests));
      MergeMonotone(table, es, index + 1);
      assert es[..index + 1] == EntriesOf(StageAll(table, requests[..index + 1]));
    }
  }

  // ---- Placement ---------------------------------------------------------------------

  predicate InRun(s: Staged, sector: nat) {
    s.first <= sector < s.first + s.count
  }

  ghost predicate InPlaced(placed: seq<Staged>, sector: nat) {
    exists i :: 0 <= i < |placed| && InRun(placed[i], sector)
  }

  ghost predicate Apart(placed: seq<Staged>) {
    forall i, j, sector: nat :: 0 <= i < j < |placed| && InRun(placed[i], sector) ==> !InRun(placed[j], sector)
  }

  /** Extents taken from sectors that `b` has free, no two of them sharing a sector. */
  ghost predicate PlacedIn(b: seq<bool>, placed: seq<Staged>) {
    && Apart(placed)
    && forall i :: 0 <= i < |placed| ==> FreeRun(b, placed[i].first, placed[i].count)
  }

  /** `bits` is `b` with the placed extents taken as well. */
  ghost predicate Taken(bits: seq<bool>, b: seq<bool>, placed: seq<Staged>) {
    |bits| == |b| && forall s :: 0 <= s < |b| ==> (bits[s] <==> b[s] || InPlaced(placed, s))
  }

  lemma PlaceNext(b: seq<bool>, bits: seq<bool>, placed: seq<Staged>, s: Staged)
    requires PlacedIn(b, placed) && Taken(bits, b, placed) && FreeRun(bits, s.first, s.count)
    ensures PlacedIn(b, placed + [s])
    ensures Taken(Marked(bits, s.first, s.count), b, placed + [s])
  {
    var more := placed + [s];
    assert more[|placed|] == s;
    assert forall i :: 0 <= i < |placed| ==> more[i] == placed[i];
    forall i, j, sector: nat | 0 <= i < j < |more| && InRun(more[i], sector)
      ensures !InRun(more[j], sector)
    {
      if j == |placed| {
        assert FreeRun(b, placed[i].first, placed[i].count);
        assert InPlaced(placed, sector);
      }
    }
    forall sector | 0 <= sector < |b|
      ensures InPlaced(more, sector) <==> InPlaced(placed, sector) || InRun(s, sector)
    {
      if InPlaced(placed, sector) {
        var i :| 0 <= i < |placed| && InRun(placed[i], sector);
        assert InRun(more[i], sector);
      }
      if InRun(s, sector) {
        assert InRun(more[|placed|], sector);
      }
    }
  }

  lemma UnplaceFirst(b: seq<bool>, bits: seq<bool>, placed: seq<Staged>)
    requires PlacedIn(b, placed) && Taken(bits, b, placed) && placed != []
    ensures PlacedIn(b, placed[1..])
    ensures Taken(Cleared(bits, placed[0].first, placed[0].count), b, placed[1..])
  {
    var rest := placed[1..];
    assert forall i :: 0 <= i < |rest| ==> rest[i] == placed[i + 1];
    forall sector | 0 <= sector < |b|
      ensures InPlaced(rest, sector) <==> InPlaced(placed, sector) && !InRun(placed[0], sector)
    {
      if InPlaced(placed, sector) && !InRun(placed[0], sector) {
        var i :| 0 <= i < |placed| && InRun(placed[i], sector);
        assert rest[i - 1] == placed[i];
      }
      if InPlaced(rest, sector) {
        var i :| 0 <= i < |rest| && InRun(rest[i], sector);
        assert InRun(placed[i + 1], sector);
      }
    }
    assert FreeRun(b, placed[0].first, placed[0].count);
  }

  /** The runs a batch asks for, in the order it asks: its objects, then a table of `count` entries. */
  function Needs(staged: seq<Staged>, count: nat): seq<nat> {
    seq(|staged|, i requires 0 <= i < |staged| => staged[i].count) + (if count == 0 then [] else [count])
  }

  /** Placing a staged batch changes where its objects go, nothing else. */
  ghost predicate PlacedAs(placed: seq<Staged>, staged: seq<Staged>) {
    |placed| == |staged| && forall i :: 0 <= i < |placed| ==> placed[i] == staged[i].(first := placed[i].first)
  }

  /** The table with the placed batch has the size that was planned when staging it. */
  lemma PlacedTable(table: seq<Entry>, requests: seq<PutRequest>, placed: seq<Staged>)
    requires Sorted(table) && DistinctIds(requests) && PlacedAs(placed, StageAll(table, requests))
    ensures var candidate := MergeAll(table, EntriesOf(placed));
            && Sorted(candidate)
            && |candidate| == |MergeAll(table, EntriesOf(StageAll(table, requests)))|
            && forall e :: e in candidate ==> e in table || e in EntriesOf(placed)
    ensures forall i :: 0 <= i < |requests| ==>
              placed[i].request == requests[i] && placed[i].version == NextVersion(table, requests[i].id)
              && placed[i].count == SectorsFor(HEADER_SIZE + |requests[i].payload|)
  {
    hide MergeAll, Sorted, Find;
    var es, fs := EntriesOf(placed), EntriesOf(StageAll(table, requests));
    assert forall i :: 0 <= i < |es| ==> es[i].id == fs[i].id == requests[i].id;
    MergeAllMeaning(table, es);
    MergeAllLength(table, es, fs);
  }
}
