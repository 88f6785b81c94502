/**
 * The crash-safe object store: copy-on-write table generations published through a
 * one-sector log and two alternating superblocks.
 */
module ObjectStores {
  import opened ObjectIds
  import opened ObjectTables
  import opened Layout
  import opened BlockDevice
  import opened Recovery
  import opened Bitmap
  import opened Requests
  import opened Generations

  ghost predicate MarksSnapshots(bits: seq<bool>, snapshots: seq<Snapshot>, held: Held) {
    forall i :: 0 <= i < |snapshots| && snapshots[i].id != 0 && SnapshotRoot(snapshots[i]) in held ==>
      MarksRoot(bits, SnapshotRoot(snapshots[i]), held[SnapshotRoot(snapshots[i])].entries)
  }

  ghost predicate MarksHeaders(bits: seq<bool>) {
    |bits| >= FIRST_ALLOCATABLE && forall s :: 0 <= s < FIRST_ALLOCATABLE ==> bits[s]
  }

  lemma WalIsWal(r: Record, next: nat, capacity: nat)
    requires IsValidWal(r, next, capacity)
    ensures r.Wal?
  {
  }

  lemma HeadersMarked(bits: seq<bool>)
    requires |bits| >= FIRST_ALLOCATABLE
    ensures MarksHeaders(Marked(bits, 0, FIRST_ALLOCATABLE))
  {
  }

  ghost predicate NamedBy(snapshots: seq<Snapshot>, root: Root) {
    exists i :: 0 <= i < |snapshots| && snapshots[i].id != 0 && SnapshotRoot(snapshots[i]) == root
  }

  /** The part of `held` a superblock naming `root` and `snapshots` still needs. */
  ghost function Needed(held: Held, root: Root, snapshots: seq<Snapshot>): Held {
    map r | r in held && (r == root || NamedBy(snapshots, r)) :: held[r]
  }

  lemma NeededBelow(held: Held, root: Root, snapshots: seq<Snapshot>, next: nat)
    requires HeldBelow(held, next)
    ensures HeldBelow(Needed(held, root, snapshots), next)
  {
  }

  /** Forgetting what the snapshot list does not name leaves the archive as it was. */
  lemma NeededKeepsArchive(held: Held, root: Root, snapshots: seq<Snapshot>, next: nat, bits: seq<bool>)
    requires SnapshotsHeld(snapshots, held) && HeldBelow(held, next) && MarksSnapshots(bits, snapshots, held)
    ensures HeldBelow(Needed(held, root, snapshots), next)
    ensures MarksSnapshots(bits, snapshots, Needed(held, root, snapshots))
    ensures SnapshotsHeld(snapshots, Needed(held, root, snapshots))
    ensures Needed(held, root, snapshots).Keys <= held.Keys
    ensures ArchiveOf(snapshots, Needed(held, root, snapshots)) == ArchiveOf(snapshots, held)
  {
    var kept := Needed(held, root, snapshots);
    forall i | 0 <= i < |snapshots| && snapshots[i].id != 0
      ensures SnapshotRoot(snapshots[i]) in kept
    {
      assert NamedBy(snapshots, SnapshotRoot(snapshots[i]));
    }
  }

  lemma NeededArchive(held: Held, root: Root, snapshots: seq<Snapshot>)
    requires SnapshotsHeld(snapshots, held)
    ensures SnapshotsHeld(snapshots, Needed(held, root, snapshots))
    ensures ArchiveOf(snapshots, Needed(held, root, snapshots)) == ArchiveOf(snapshots, held)
  {
    var kept := Needed(held, root, snapshots);
    forall i | 0 <= i < |snapshots| && snapshots[i].id != 0
      ensures SnapshotRoot(snapshots[i]) in kept
    {
      assert NamedBy(snapshots, SnapshotRoot(snapshots[i]));
    }
  }

  /** Forgetting all but one list leaves one of the archives there were. */
  lemma NeededArchives(held: Held, root: Root, snapshots: seq<Snapshot>, lists: set<seq<Snapshot>>)
    requires SnapshotsHeld(snapshots, held) && snapshots in lists
    ensures ArchivesOf({snapshots}, Needed(held, root, snapshots)) == {ArchiveOf(snapshots, held)} <= ArchivesOf(lists, held)
  {
    hide SnapshotsHeld, Needed, ArchiveOf;
    NeededArchive(held, root, snapshots);
  }

  lemma MoreArchives(held: Held, lists: set<seq<Snapshot>>, l: seq<Snapshot>)
    requires SnapshotsHeld(l, held)
    ensures ArchivesOf(lists + {l}, held) == ArchivesOf(lists, held) + {ArchiveOf(l, held)}
  {
    hide SnapshotsHeld, ArchiveOf;
  }

  lemma HoldMoreArchives(held: Held, root: Root, g: Generation, lists: set<seq<Snapshot>>)
    requires (root in held ==> held[root] == g) && forall l :: l in lists ==> SnapshotsHeld(l, held)
    ensures ArchivesOf(lists, held[root := g]) == ArchivesOf(lists, held)
  {
    var more := held[root := g];
    forall l | l in lists
      ensures SnapshotsHeld(l, more) && ArchiveOf(l, more) == ArchiveOf(l, held)
    {
      assert SnapshotsHeld(l, held);
    }
    hide SnapshotsHeld, ArchiveOf;
  }

  lemma ResolvedTable(img: seq<Record>, capacity: nat)
    requires |img| >= FIRST_ALLOCATABLE && Resolve(img, capacity).Some?
    ensures ReadTable(img, Resolve(img, capacity).value.root, capacity).Some?
    ensures |Resolve(img, capacity).value.sb.snapshots| == SNAPSHOT_LIMIT
  {
  }

  lemma LessIsTransitive(entries: seq<Entry>, e: Entry)
    requires Sorted(entries)
    requires entries == [] || Less(entries[|entries| - 1].id, e.id)
    ensures Sorted(entries + [e])
  {
    forall i | 0 <= i < |entries|
      ensures Less(entries[i].id, e.id)
    {
      assert i < |entries| - 1 ==> Less(entries[i].id, entries[|entries| - 1].id);
    }
  }

  /** The sectors the generation at `root`, as read from the image, depends on. */
  ghost predicate Reachable(img: seq<Record>, capacity: nat, root: Root, s: nat) {
    root.count != 0 && ReadTable(img, root, capacity).Some?
    && Covers(root, ReadTable(img, root, capacity).value, s)
  }

  ghost predicate ReachableFrom(img: seq<Record>, capacity: nat, snapshots: seq<Snapshot>, s: nat) {
    exists i :: 0 <= i < |snapshots| && snapshots[i].id != 0 && Reachable(img, capacity, SnapshotRoot(snapshots[i]), s)
  }

  lemma CoversNext(root: Root, entries: seq<Entry>, index: nat)
    requires index < |entries|
    ensures forall s: nat :: Covers(root, entries[..index + 1], s)
                             <==> Covers(root, entries[..index], s) || InExtent(entries[index], s)
  {
    forall s: nat
      ensures Covers(root, entries[..index + 1], s)
              <==> Covers(root, entries[..index], s) || InExtent(entries[index], s)
    {
      assert entries[..index + 1][index] == entries[index];
      assert forall i :: 0 <= i < index ==> entries[..index + 1][i] == entries[..index][i];
    }
  }

  lemma ReachableNext(img: seq<Record>, capacity: nat, snapshots: seq<Snapshot>, slot: nat)
    requires slot < |snapshots|
    ensures forall s: nat :: ReachableFrom(img, capacity, snapshots[..slot + 1], s)
                             <==> ReachableFrom(img, capacity, snapshots[..slot], s)
                                  || (snapshots[slot].id != 0 && Reachable(img, capacity, SnapshotRoot(snapshots[slot]), s))
  {
    var longer, shorter := snapshots[..slot + 1], snapshots[..slot];
    assert longer[slot] == snapshots[slot];
    assert forall i :: 0 <= i < slot ==> longer[i] == shorter[i];
  }

  /** Some live snapshot depends on the sector. */
  ghost predicate InArchive(snapshots: seq<Snapshot>, held: Held, s: nat) {
    exists i :: 0 <= i < |snapshots| && snapshots[i].id != 0 && SnapshotRoot(snapshots[i]) in held
                && Covers(SnapshotRoot(snapshots[i]), held[SnapshotRoot(snapshots[i])].entries, s)
  }

  /** For held generations, what collection reads back is what was stored. */
  lemma CollectFacts(p: Platter, capacity: nat, held: Held, lists: set<seq<Snapshot>>, floor: nat, roots: set<Root>,
                     here: Root, snapshots: seq<Snapshot>)
    requires Safe(p, capacity, held, lists, floor, roots) && here in held && snapshots in lists
    ensures SnapshotsHeld(snapshots, held) && |snapshots| == SNAPSHOT_LIMIT
    ensures ReadTable(p.cur, here, capacity) == Some(held[here].entries)
    ensures SnapshotsReadable(p.cur, snapshots, capacity)
    ensures forall s: nat :: Reachable(p.cur, capacity, here, s) <==> Covers(here, held[here].entries, s)
    ensures forall s: nat :: ReachableFrom(p.cur, capacity, snapshots, s) <==> InArchive(snapshots, held, s)
  {
    SafeFacts(p, capacity, held, lists, floor, roots);
    hide Safe;
    OnDiskIsReadable(p.cur, here, held[here], capacity);
    forall i | 0 <= i < |snapshots| && snapshots[i].id != 0
      ensures ReadTable(p.cur, SnapshotRoot(snapshots[i]), capacity)
              == Some(held[SnapshotRoot(snapshots[i])].entries)
    {
      OnDiskIsReadable(p.cur, SnapshotRoot(snapshots[i]), held[SnapshotRoot(snapshots[i])], capacity);
    }
  }

  lemma EmptyTail(history: seq<Platter>, capacity: nat, gens: set<Generation>, archives: set<Archive>)
    ensures CrashTail(history, |history|, capacity, gens, archives)
  {
  }

  /** Recording a held generation under a fresh id adds exactly that entry to the archive. */
  lemma AddSnapshot(snapshots: seq<Snapshot>, slot: nat, s: Snapshot, held: Held, bits: seq<bool>)
    requires SnapshotsHeld(snapshots, held) && slot < SNAPSHOT_LIMIT
    requires snapshots[slot].id == 0 && s.id != 0 && s.count != 0 && SnapshotRoot(s) in held
    requires forall i :: 0 <= i < SNAPSHOT_LIMIT ==> snapshots[i].id != s.id
    requires MarksSnapshots(bits, snapshots, held) && MarksRoot(bits, SnapshotRoot(s), held[SnapshotRoot(s)].entries)
    ensures SnapshotsHeld(snapshots[slot := s], held)
    ensures s.id !in ArchiveOf(snapshots, held)
    ensures ArchiveOf(snapshots[slot := s], held) == ArchiveOf(snapshots, held)[s.id := held[SnapshotRoot(s)]]
    ensures MarksSnapshots(bits, snapshots[slot := s], held)
  {
    var more := snapshots[slot := s];
    assert more[slot] == s;
    assert forall i :: 0 <= i < SNAPSHOT_LIMIT && i != slot ==> more[i] == snapshots[i];
  }

  lemma ArchiveAt(snapshots: seq<Snapshot>, held: Held, slot: nat)
    requires SnapshotsHeld(snapshots, held) && slot < SNAPSHOT_LIMIT && snapshots[slot].id != 0
    ensures snapshots[slot].id in ArchiveOf(snapshots, held)
    ensures ArchiveOf(snapshots, held)[snapshots[slot].id] == held[SnapshotRoot(snapshots[slot])]
    ensures snapshots[slot].count != 0 && SnapshotRoot(snapshots[slot]) in held
  {
  }

  /** What is left of an archive after dropping only its oldest entries. */
  ghost predicate Newest(kept: Archive, all: Archive) {
    && kept.Keys <= all.Keys
    && (forall id :: id in kept ==> kept[id] == all[id])
    && (forall dropped, id :: dropped in all.Keys - kept.Keys && id in kept ==> dropped < id)
  }

  lemma NewestSelf(all: Archive)
    ensures Newest(all, all)
  {
  }

  lemma DropOldest(kept: Archive, all: Archive, oldest: nat)
    requires Newest(kept, all) && oldest in kept && forall id :: id in kept ==> oldest <= id
    ensures Newest(kept - {oldest}, all) && |kept - {oldest}| == |kept| - 1
  {
    var fewer := kept - {oldest};
    assert fewer.Keys == kept.Keys - {oldest};
    forall dropped, id | dropped in all.Keys - fewer.Keys && id in fewer
      ensures dropped < id
    {
      assert dropped == oldest || dropped in all.Keys - kept.Keys;
    }
    assert |kept - {oldest}| == |(kept - {oldest}).Keys| && |kept| == |kept.Keys|;
  }

  ghost function IdsOf(snapshots: seq<Snapshot>): set<nat> {
    set i | 0 <= i < |snapshots| && snapshots[i].id != 0 :: snapshots[i].id
  }

  lemma ArchiveIds(snapshots: seq<Snapshot>, held: Held)
    requires SnapshotsHeld(snapshots, held)
    ensures ArchiveOf(snapshots, held).Keys == IdsOf(snapshots) && |ArchiveOf(snapshots, held)| == |IdsOf(snapshots)|
    ensures UniqueIds(snapshots)
  {
    var archive := ArchiveOf(snapshots, held);
    assert archive.Keys == IdsOf(snapshots);
    assert |archive| == |archive.Keys|;
  }

  lemma IdsNext(snapshots: seq<Snapshot>, slot: nat)
    requires slot < |snapshots| && UniqueIds(snapshots)
    ensures IdsOf(snapshots[..slot + 1])
            == IdsOf(snapshots[..slot]) + (if snapshots[slot].id == 0 then {} else {snapshots[slot].id})
    ensures |IdsOf(snapshots[..slot + 1])| == |IdsOf(snapshots[..slot])| + (if snapshots[slot].id == 0 then 0 else 1)
  {
    var longer, shorter := snapshots[..slot + 1], snapshots[..slot];
    assert longer[slot] == snapshots[slot] && forall i :: 0 <= i < slot ==> longer[i] == shorter[i] == snapshots[i];
    assert IdsOf(longer) == IdsOf(shorter) + (if snapshots[slot].id == 0 then {} else {snapshots[slot].id});
    assert snapshots[slot].id !in IdsOf(shorter);
  }

  lemma NoIds(snapshots: seq<Snapshot>)
    ensures IdsOf(snapshots[..0]) == {}
  {
  }

  /** Counts the live snapshots and finds the one with the lowest id. */
  method ScanSnapshots(snapshots: seq<Snapshot>) returns (used: nat, oldest: nat)
    requires |snapshots| == SNAPSHOT_LIMIT && UniqueIds(snapshots)
    ensures used == |IdsOf(snapshots)|
    ensures oldest == SNAPSHOT_LIMIT <==> IdsOf(snapshots) == {}
    ensures oldest != SNAPSHOT_LIMIT ==> oldest < SNAPSHOT_LIMIT && snapshots[oldest].id in IdsOf(snapshots)
                                         && forall id :: id in IdsOf(snapshots) ==> snapshots[oldest].id <= id
  {
    hide IdsOf, UniqueIds;
    used, oldest := 0, SNAPSHOT_LIMIT;
    NoIds(snapshots);
    var slot := 0;
    while slot < SNAPSHOT_LIMIT
      invariant 0 <= slot <= SNAPSHOT_LIMIT
      invariant used == |IdsOf(snapshots[..slot])|
      invariant oldest == SNAPSHOT_LIMIT <==> IdsOf(snapshots[..slot]) == {}
      invariant oldest != SNAPSHOT_LIMIT ==> oldest < slot && snapshots[oldest].id in IdsOf(snapshots[..slot])
                                             && forall id :: id in IdsOf(snapshots[..slot]) ==> snapshots[oldest].id <= id
    {
      IdsNext(snapshots, slot);
      if snapshots[slot].id != 0 {
        used := used + 1;
        if oldest == SNAPSHOT_LIMIT || snapshots[slot].id < snapshots[oldest].id {
          oldest := slot;
        }
      }
      slot := slot + 1;
    }
    assert snapshots[..slot] == snapshots;
  }

  lemma ListedFacts(snapshots: seq<Snapshot>, held: Held)
    requires SnapshotsHeld(snapshots, held)
    ensures |snapshots| == SNAPSHOT_LIMIT
  {
  }

  lemma NotListed(snapshots: seq<Snapshot>, held: Held, id: nat)
    requires SnapshotsHeld(snapshots, held)
    requires id == 0 || forall i :: 0 <= i < SNAPSHOT_LIMIT ==> snapshots[i].id != id
    ensures id !in ArchiveOf(snapshots, held)
    ensures ArchiveOf(snapshots, held) - {id} == ArchiveOf(snapshots, held)
  {
  }

  lemma DropSnapshot(snapshots: seq<Snapshot>, slot: nat, held: Held, bits: seq<bool>)
    requires SnapshotsHeld(snapshots, held) && slot < SNAPSHOT_LIMIT && snapshots[slot].id != 0
    requires MarksSnapshots(bits, snapshots, held)
    ensures SnapshotsHeld(snapshots[slot := NO_SNAPSHOT], held)
    ensures snapshots[slot].id in ArchiveOf(snapshots, held)
    ensures ArchiveOf(snapshots[slot := NO_SNAPSHOT], held) == ArchiveOf(snapshots, held) - {snapshots[slot].id}
    ensures MarksSnapshots(bits, snapshots[slot := NO_SNAPSHOT], held)
  {
    hide ArchiveOf;
    DropArchive(snapshots, slot, held);
    var fewer := snapshots[slot := NO_SNAPSHOT];
    assert forall i :: 0 <= i < SNAPSHOT_LIMIT && i != slot ==> fewer[i] == snapshots[i];
  }

  lemma DropArchive(snapshots: seq<Snapshot>, slot: nat, held: Held)
    requires SnapshotsHeld(snapshots, held) && slot < SNAPSHOT_LIMIT && snapshots[slot].id != 0
    ensures SnapshotsHeld(snapshots[slot := NO_SNAPSHOT], held) && snapshots[slot].id in ArchiveOf(snapshots, held)
    ensures ArchiveOf(snapshots[slot := NO_SNAPSHOT], held) == ArchiveOf(snapshots, held) - {snapshots[slot].id}
  {
    var fewer := snapshots[slot := NO_SNAPSHOT];
    assert forall i :: 0 <= i < SNAPSHOT_LIMIT && i != slot ==> fewer[i] == snapshots[i];
  }

  /** The sectors of a table, one entry each. */
  function TableRecords(entries: seq<Entry>): (records: seq<Record>)
    ensures |records| == |entries|
  {
    seq(|entries|, i requires 0 <= i < |entries| => TableEntry(entries[i]))
  }

  lemma RecordsAreTable(img: seq<Record>, root: Root, entries: seq<Entry>)
    requires root.count == |entries| && (root.count == 0 ==> root.sector == 0)
    requires root.count != 0 ==> FIRST_ALLOCATABLE <= root.sector && root.sector + root.count <= |img|
                                 && img[root.sector..root.sector + root.count] == TableRecords(entries)
    ensures TableOnDisk(img, root, entries)
  {
    forall i | 0 <= i < |entries|
      ensures img[root.sector + i] == TableEntry(entries[i])
    {
      assert img[root.sector..root.sector + root.count][i] == TableRecords(entries)[i];
    }
  }

  /** Consequences of a placement for the runs it consists of. */
  lemma PlacedRuns(b: seq<bool>, placed: seq<Staged>, root: Root, cacheCapacity: nat)
    requires PlacedIn(b, Runs(placed, root))
    requires forall i :: 0 <= i < |placed| ==> StagedOk(placed[i], cacheCapacity)
    ensures PlacedIn(b, placed)
    ensures root.count != 0 ==> FreeRun(b, root.sector, root.count)
    ensures forall i :: 0 <= i < |placed| ==> |BlocksFor(placed[i].request, placed[i].version)| == placed[i].count
  {
    var runs := Runs(placed, root);
    assert forall i :: 0 <= i < |placed| ==> runs[i] == placed[i];
    assert root.count != 0 ==> runs[|placed|] == TableRun(root);
    forall i | 0 <= i < |placed|
      ensures |BlocksFor(placed[i].request, placed[i].version)| == placed[i].count
    {
      assert FreeRun(b, runs[i].first, runs[i].count);
      StagedBlocks(placed[i], cacheCapacity);
    }
  }

  lemma HeadersSame(before: seq<Record>, after: seq<Record>, b: seq<bool>, placed: seq<Staged>)
    requires SameExcept(before, after, placed) && PlacedIn(b, placed) && |before| >= FIRST_ALLOCATABLE
    ensures forall s :: 0 <= s < FIRST_ALLOCATABLE ==> after[s] == before[s]
  {
    forall s | 0 <= s < FIRST_ALLOCATABLE
      ensures !InPlaced(placed, s)
    {
      assert forall i :: 0 <= i < |placed| ==> FreeRun(b, placed[i].first, placed[i].count);
    }
  }

  lemma HeadersStill(before: seq<Record>, after: seq<Record>, root: Root)
    requires SameOutside(before, after, root.sector, root.count) && |before| >= FIRST_ALLOCATABLE
    requires root.count != 0 ==> FIRST_ALLOCATABLE <= root.sector
    ensures forall s :: 0 <= s < FIRST_ALLOCATABLE ==> after[s] == before[s]
  {
  }

  lemma SameTrivially(img: seq<Record>)
    ensures SameOutside(img, img, 0, 0)
  {
  }

  lemma PlacedNothing(placed: seq<Staged>)
    requires PlacedAs(placed, [])
    ensures placed == []
  {
  }

  lemma StillBelow(held: Held, kept: Held, next: nat)
    requires HeldBelow(held, next) && kept.Keys <= held.Keys
    ensures HeldBelow(kept, next)
  {
  }

  lemma StagedNonEmpty(table: seq<Entry>, requests: seq<PutRequest>)
    ensures forall i :: 0 <= i < |StageAll(table, requests)| ==> StageAll(table, requests)[i].count != 0
  {
  }

  lemma NothingPlaced(b: seq<bool>)
    ensures PlacedIn(b, []) && Taken(b, b, [])
  {
  }

  lemma FreeRunEnds(b: seq<bool>, first: nat, count: nat)
    requires FreeRun(b, first, count)
    ensures FIRST_ALLOCATABLE <= first && first + count <= |b|
  {
  }

  /** More taken sectors guard at least as much. */
  lemma TakenGuards(b: seq<bool>, bits: seq<bool>, placed: seq<Staged>, root: Root, here: Root, table: seq<Entry>,
                    snapshots: seq<Snapshot>, held: Held)
    requires Taken(bits, b, Runs(placed, root)) && MarksHeaders(b) && MarksRoot(b, here, table)
    requires MarksSnapshots(b, snapshots, held)
    ensures MarksHeaders(bits) && MarksRoot(bits, here, table) && MarksSnapshots(bits, snapshots, held)
  {
    forall i | 0 <= i < |snapshots| && snapshots[i].id != 0 && SnapshotRoot(snapshots[i]) in held
      ensures MarksRoot(bits, SnapshotRoot(snapshots[i]), held[SnapshotRoot(snapshots[i])].entries)
    {
      assert MarksRoot(b, SnapshotRoot(snapshots[i]), held[SnapshotRoot(snapshots[i])].entries);
    }
  }

  /** What is still needed is taken, so a free sector belongs to none of it. */
  lemma NeededProtects(held: Held, here: Root, snapshots: seq<Snapshot>, b: seq<bool>)
    requires here in held && MarksRoot(b, here, held[here].entries) && MarksSnapshots(b, snapshots, held)
    ensures forall s :: 0 <= s < |b| && !b[s] ==> Untouched(Needed(held, here, snapshots), s)
  {
    forall s, r | 0 <= s < |b| && !b[s] && r in Needed(held, here, snapshots)
      ensures !Covers(r, held[r].entries, s)
    {
      if r != here {
        var i :| 0 <= i < |snapshots| && snapshots[i].id != 0 && SnapshotRoot(snapshots[i]) == r;
        assert MarksRoot(b, SnapshotRoot(snapshots[i]), held[SnapshotRoot(snapshots[i])].entries);
      }
    }
  }

  datatype BatchResult = Rejected | Committed | RecoveryRequired

  /** A generation new to a bitmap: its sectors are taken, and none of the held ones is it. */
  lemma AdoptNew(b: seq<bool>, bits: seq<bool>, placed: seq<Staged>, root: Root,
                 candidate: seq<Entry>, table: seq<Entry>, here: Root, held: Held)
    requires PlacedIn(b, Runs(placed, root)) && Taken(bits, b, Runs(placed, root)) && MarksRoot(b, here, table)
    requires FromBatch(candidate, table, placed)
    requires forall s :: 0 <= s < |b| && !b[s] ==> Untouched(held, s)
    ensures MarksRoot(bits, root, candidate)
    ensures root in held ==> root.count == 0
  {
    var runs := Runs(placed, root);
    assert forall i :: 0 <= i < |placed| ==> runs[i] == placed[i];
    assert root.count != 0 ==> runs[|placed|] == TableRun(root);
    if root.count != 0 {
      assert FreeRun(b, runs[|placed|].first, runs[|placed|].count);
      assert Untouched(held, root.sector);
      assert root in held ==> Covers(root, held[root].entries, root.sector);
    }
    forall s | 0 <= s < |bits| && Covers(root, candidate, s)
      ensures bits[s]
    {
      if InTable(root, s) {
        assert InRun(runs[|placed|], s);
      } else {
        var i :| 0 <= i < |candidate| && InExtent(candidate[i], s);
        var e := candidate[i];
        assert e in candidate;
        if e in table {
          var k :| 0 <= k < |table| && table[k] == e;
          assert Covers(here, table, s);
        } else {
          var k :| 0 <= k < |placed| && EntriesOf(placed)[k] == e;
          assert InRun(runs[k], s);
        }
      }
    }
  }

  lemma SettledHolds(img: seq<Record>, root: Root, g: Generation)
    requires OnDisk(img, root, g)
    ensures Holds(Settled(img), root, g)
  {
  }

  lemma HoldMoreSnapshots(held: Held, root: Root, g: Generation, snapshots: seq<Snapshot>, bits: seq<bool>)
    requires SnapshotsHeld(snapshots, held) && MarksSnapshots(bits, snapshots, held)
    requires root in held ==> held[root] == g
    ensures SnapshotsHeld(snapshots, held[root := g]) && MarksSnapshots(bits, snapshots, held[root := g])
    ensures ArchiveOf(snapshots, held[root := g]) == ArchiveOf(snapshots, held)
  {
  }

  lemma EmptyIsEmpty(img: seq<Record>, root: Root, g: Generation, h: Generation)
    requires OnDisk(img, root, g) && OnDisk(img, root, h) && root.count == 0
    ensures g == h
  {
  }

  lemma HoldMoreBelow(held: Held, root: Root, g: Generation, next: nat)
    requires HeldBelow(held, next) && root.sector + root.count <= next
    ensures HeldBelow(held[root := g], next)
  {
  }

  /** The disk a format leaves: superblock 1 in B, 2 in A, no log, an empty table. */
  lemma FormattedIsSafe(img: seq<Record>, capacity: nat, snapshots: seq<Snapshot>)
    requires |img| >= FIRST_ALLOCATABLE && |snapshots| == SNAPSHOT_LIMIT
    requires forall i :: 0 <= i < SNAPSHOT_LIMIT ==> snapshots[i].id == 0
    requires img[SUPERBLOCK_B] == Super(Superblock(1, capacity, FIRST_ALLOCATABLE, 0, 0, 0, snapshots))
    requires img[SUPERBLOCK_A] == Super(Superblock(2, capacity, FIRST_ALLOCATABLE, 0, 0, 0, snapshots))
    requires img[WAL_SECTOR] == Blank
    ensures Safe(Settled(img), capacity, map[EMPTY_ROOT := EMPTY], {snapshots}, 2, {EMPTY_ROOT})
  {
    var held: Held := map[EMPTY_ROOT := EMPTY];
    assert OnDisk(img, EMPTY_ROOT, EMPTY) && WellFormed(EMPTY, capacity);
    assert SuperOk(img[SUPERBLOCK_A].sb, |img|, capacity, held, {snapshots});
  }

  lemma LongerTail(h: seq<Platter>, history: seq<Platter>, from: nat, capacity: nat, gens: set<Generation>,
                   archives: set<Archive>, during: set<Archive>, more: set<Archive>)
    requires from <= |h| && h <= history && archives <= more && during <= more
    requires CrashTail(h, from, capacity, gens, archives) && CrashTail(history, |h|, capacity, gens, during)
    ensures CrashTail(history, from, capacity, gens, more)
  {
    hide CrashTail;
    WidenTail(h, from, capacity, gens, archives, gens, more);
    WidenTail(history, |h|, capacity, gens, during, gens, more);
    JoinTails(h, history, from, capacity, gens, more);
  }

  /** An empty store needs nothing but its headers. */
  lemma EmptyHolds(snapshots: seq<Snapshot>, bits: seq<bool>, next: nat)
    requires snapshots == NO_SNAPSHOTS && next == FIRST_ALLOCATABLE
    ensures var held: Held := map[EMPTY_ROOT := EMPTY];
            && SnapshotsHeld(snapshots, held) && ArchiveOf(snapshots, held) == map[] && HeldBelow(held, next)
            && MarksRoot(bits, EMPTY_ROOT, []) && MarksSnapshots(bits, snapshots, held)
  {
  }

  /** The end of the last sector ever handed out, once these runs are. */
  ghost predicate HighWater(before: nat, after: nat, runs: seq<Staged>) {
    && before <= after && (forall i :: 0 <= i < |runs| ==> runs[i].first + runs[i].count <= after)
    && (after == before || exists i :: 0 <= i < |runs| && runs[i].first + runs[i].count == after)
  }

  lemma NoWater(next: nat)
    ensures HighWater(next, next, [])
  {
  }

  lemma HigherWater(before: nat, after: nat, runs: seq<Staged>, one: Staged)
    requires HighWater(before, after, runs)
    ensures HighWater(before, if one.first + one.count > after then one.first + one.count else after, runs + [one])
  {
    var more, end := runs + [one], one.first + one.count;
    assert more[|runs|] == one;
    if after != before && end <= after {
      var i :| 0 <= i < |runs| && runs[i].first + runs[i].count == after;
      assert more[i] == runs[i];
    }
  }

  /** One free place of the list was filled. */
  ghost predicate Added(before: seq<Snapshot>, after: seq<Snapshot>, id: nat) {
    exists i :: 0 <= i < |before| && |after| == |before| && before[i].id == 0 && after[i].id == id && after == before[i := after[i]]
  }

  class ObjectStore {
    const device: Device
    const allocator: Allocator
    const capacity: nat
    const cacheCapacity: nat

    var table: seq<Entry>
    var next: nat
    var tableSector: nat
    var generation: nat
    var sequence: nat
    var active: nat
    var recoveryRequired: bool
    var snapshots: seq<Snapshot>

    /** Generations on disk that recovery may still need, whatever the buffer does. */
    ghost var held: Held
    /** The snapshot lists a crash may mount with. */
    ghost var lists: set<seq<Snapshot>>
    /** The lowest superblock sequence a crash may mount from. */
    ghost var floor: nat
    /** The generations a crash may mount into. */
    ghost var roots: set<Root>

    ghost predicate Parts()
      reads device
    {
      && device.Valid()
      && allocator.bits.Length == |device.durable| >= FIRST_ALLOCATABLE
    }

    ghost function Here(): Root
      reads this`table, this`tableSector
    {
      Root(tableSector, |table|)
    }

    /** Safe against a crash at this moment, and decided if no log record is pending. */
    ghost predicate Durable()
      reads this`held, this`lists, this`floor, this`roots, device
    {
      && Parts()
      && Safe(device.View(), capacity, held, lists, floor, roots)
      && (device.View().cur[WAL_SECTOR].Blank? ==> exists root :: roots == {root})
    }

    /** The in-memory state agrees with the disk. */
    ghost predicate Ready()
      requires Parts()
      reads this, device
    {
      ReadyWith(next)
    }

    ghost predicate ReadyWith(next: nat)
      requires Parts()
      reads this`table, this`tableSector, this`sequence, this`active, this`snapshots,
            this`held, this`lists, this`floor, this`roots, device
    {
      var p := device.View();
      && roots == {Here()}
      && Here() in held
      && table == held[Here()].entries
      && snapshots in lists
      && HeldBelow(held, next)
      && FIRST_ALLOCATABLE <= next <= |device.durable|
      && active <= SUPERBLOCK_B
      && p.cur[active].Super? && p.cur[active].sb.sequence == sequence >= floor
      && p.cur[WAL_SECTOR].Blank?
    }

    /** The allocator protects the generation in force and every live snapshot. */
    ghost predicate Guarded()
      reads this, allocator.bits
    {
      GuardedBy(allocator.Bits())
    }

    ghost predicate GuardedBy(bits: seq<bool>)
      reads this`table, this`tableSector, this`snapshots, this`held
    {
      && MarksHeaders(bits)
      && MarksRoot(bits, Here(), table)
      && MarksSnapshots(bits, snapshots, held)
    }

    ghost predicate Valid()
      reads this, device, allocator.bits
    {
      Durable() && (!recoveryRequired ==> Ready() && Guarded())
    }

    /** What serving requests takes for granted. */
    lemma ReadyFacts()
      requires Durable() && Ready()
      ensures Parts() && Safe(device.View(), capacity, held, lists, floor, roots)
      ensures Here() in held && roots == {Here()} && table == held[Here()].entries
      ensures snapshots in lists && SnapshotsHeld(snapshots, held) && HeldBelow(held, next)
    {
      hide Observe, Safe, SnapshotsHeld, HeldBelow, WellFormed, OnDisk;
      SafeFacts(device.View(), capacity, held, lists, floor, roots);
    }

    /** `next` may move anywhere that stays above everything held. */
    lemma ReadyMoves(from: nat, to: nat)
      requires Parts() && ReadyWith(from)
      requires from <= to <= |device.durable| || (HeldBelow(held, to) && FIRST_ALLOCATABLE <= to <= |device.durable|)
      ensures ReadyWith(to)
    {
      hide Observe;
    }

    lemma ReadyOnDisk()
      requires Durable() && Ready()
      ensures Here() in held && OnDisk(device.View().cur, Here(), Current())
    {
      hide Observe, Safe, SnapshotsHeld, HeldBelow, WellFormed, OnDisk;
      SafeFacts(device.View(), capacity, held, lists, floor, roots);
    }

    lemma ReadySuper()
      requires Durable() && Ready()
      ensures SuperOk(SuperNow(), |device.durable|, capacity, held, lists)
    {
      hide Observe, Safe, SnapshotsHeld, HeldBelow, WellFormed, OnDisk;
      SafeFacts(device.View(), capacity, held, lists, floor, roots);
    }

    lemma HeldRoot(root: Root)
      requires Durable() && root in held
      ensures root.count != 0 ==> FIRST_ALLOCATABLE <= root.sector
      ensures |held[root].entries| == root.count <= capacity
      ensures ReadTable(device.View().cur, root, capacity) == Some(held[root].entries)
    {
      hide Observe, Safe, SnapshotsHeld, HeldBelow, ReadTable;
      SafeFacts(device.View(), capacity, held, lists, floor, roots);
      OnDiskIsReadable(device.View().cur, root, held[root], capacity);
    }

    lemma ReadyTable()
      requires Valid() && !recoveryRequired
      ensures Here() in held && WellFormed(held[Here()], capacity) && Sorted(table) && |table| <= capacity
      ensures FIRST_ALLOCATABLE <= next <= allocator.bits.Length == |device.durable| && GuardedBy(allocator.Bits())
      ensures Durable() && Ready()
    {
      hide Observe, Safe, SnapshotsHeld, HeldBelow, WellFormed, OnDisk, MarksRoot, MarksSnapshots, MarksHeaders;
      SafeFacts(device.View(), capacity, held, lists, floor, roots);
      WellFormedFacts(held[Here()], capacity);
    }

    /** The generation in force, table and object bytes. */
    ghost function Current(): Generation
      requires Here() in held
      reads this`table, this`tableSector, this`held
    {
      held[Here()]
    }

    /** The generations a crash may mount into. */
    ghost function Outcomes(): set<Generation>
      reads this`held, this`roots
    {
      set r | r in roots && r in held :: held[r]
    }

    /** The generation every live snapshot would restore. */
    ghost function Archive(): Archive
      requires SnapshotsHeld(snapshots, held)
      reads this`snapshots, this`held
    {
      ArchiveOf(snapshots, held)
    }

    /** The archives a crash may mount with. */
    ghost function Archives(): set<Archive>
      reads this`lists, this`held
    {
      ArchivesOf(lists, held)
    }

    /** A store over a device, quarantined until it is mounted (or formatted). */
    constructor (device: Device, capacity: nat, cacheCapacity: nat, ghost held: Held,
                 ghost lists: set<seq<Snapshot>>, ghost floor: nat, ghost roots: set<Root>)
      ensures this.device == device && this.capacity == capacity && this.cacheCapacity == cacheCapacity
      ensures fresh(allocator) && fresh(allocator.bits) && allocator.bits.Length == |device.durable|
      ensures this.held == held && this.lists == lists && this.floor == floor && this.roots == roots
      ensures recoveryRequired
    {
      this.device, this.capacity, this.cacheCapacity := device, capacity, cacheCapacity;
      this.allocator := new Allocator(|device.durable|);
      this.table, this.next, this.tableSector, this.generation := [], 0, 0, 0;
      this.sequence, this.active, this.snapshots := 0, 0, [];
      this.recoveryRequired := true;
      this.held, this.lists, this.floor, this.roots := held, lists, floor, roots;
    }

    // ---- Superblock and log writes ------------------------------------------------------

    ghost function SuperNow(): Superblock
      reads this
    {
      Superblock(sequence + 1, capacity, next, tableSector, |table|, generation, snapshots)
    }

    /** One sector written and flushed: the idiom of superblock and log updates. */
    method WriteThrough(s: nat, r: Record) returns (ok: bool)
      requires Parts() && s < |device.durable|
      modifies device
      ensures Parts()
      ensures old(device.history) <= device.history
      ensures !ok ==> device.FaultedSince(old(|device.history|))
      ensures var p := old(device.View());
              && (forall i :: old(|device.history|) <= i < |device.history| ==>
                    device.history[i] == p || device.history[i] == Wrote(p, s, r)
                    || device.history[i] == Settled(p.cur[s := r]))
              && (device.View() == Settled(p.cur[s := r])
                  || (!ok && (device.View() == p || device.View() == Wrote(p, s, r))))
    {
      ok := device.WriteSector(s, r);
      if !ok {
        return false;
      }
      ok := device.Flush();
    }

    /**
     * Writes the other superblock slot. On a `safe` disk, a superblock recovery may start
     * from keeps it safe at every point.
     */
    method WriteSuperblock(ghost safe: bool := true) returns (ok: bool)
      requires Parts() && active <= SUPERBLOCK_B
      requires safe ==>
                 && floor <= sequence && sequence % 2 == active
                 && Safe(device.View(), capacity, held, lists, floor, roots)
                 && SuperOk(SuperNow(), |device.durable|, capacity, held, lists)
                 && (forall w :: w in device.View().maybe[WAL_SECTOR] ==> EffectiveRoot(SuperNow(), w) in roots)
      modifies this`sequence, this`active, device
      ensures Parts()
      ensures old(device.history) <= device.history
      ensures !ok ==> device.FaultedSince(old(|device.history|))
      ensures safe ==> Safe(device.View(), capacity, held, lists, floor, roots)
      ensures safe ==> SafeTail(device.history, old(|device.history|), capacity, held, lists, floor, roots)
      ensures ok ==> sequence == old(sequence) + 1 && active == 1 - old(active)
      ensures ok ==> device.View() == Settled(old(device.View()).cur[active := Super(old(SuperNow()))])
      ensures !ok ==> sequence == old(sequence) && active == old(active)
      ensures !ok ==> forall s :: 0 <= s < |device.durable| && s != 1 - active ==>
                device.View().cur[s] == old(device.View()).cur[s]
    {
      hide Observe, Safe, SuperOk;
      var sb := Superblock(sequence + 1, capacity, next, tableSector, |table|, generation, snapshots);
      var target := if active == SUPERBLOCK_A then SUPERBLOCK_B else SUPERBLOCK_A;
      ghost var p := device.View();
      if safe {
        SuperSteps(p, capacity, held, lists, floor, roots, target, sb);
      }
      ok := WriteThrough(target, Super(sb));
      if ok {
        sequence := sequence + 1;
        active := target;
      }
    }

    /** The newest superblock is durable and leads here: forget everything older. */
    ghost method ForgetOlder()
      requires Parts() && active <= SUPERBLOCK_B
      requires Safe(device.View(), capacity, held, lists, floor, roots)
      requires device.View() == Settled(device.View().cur)
      requires device.View().cur[active].Super? && device.View().cur[1 - active].Super?
      requires device.View().cur[1 - active].sb.sequence < device.View().cur[active].sb.sequence
      requires floor <= device.View().cur[active].sb.sequence
      requires SuperRoot(device.View().cur[active].sb) == Here() && device.View().cur[active].sb.snapshots == snapshots
      requires device.View().cur[WAL_SECTOR].Blank?
               || (device.View().cur[WAL_SECTOR].Wal? && device.View().cur[WAL_SECTOR].generation != 0)
      requires EffectiveRoot(device.View().cur[active].sb, device.View().cur[WAL_SECTOR]) == Here()
      requires Here() in held && SnapshotsHeld(snapshots, held)
      modifies this`held, this`lists, this`floor, this`roots
      ensures held == Needed(old(held), Here(), snapshots)
      ensures Here() in held && held[Here()] == old(held)[Here()]
      ensures lists == {snapshots} && floor == device.View().cur[active].sb.sequence && roots == {Here()}
      ensures Safe(device.View(), capacity, held, lists, floor, roots)
    {
      hide Observe, Safe, OnDisk;
      var img := device.View().cur;
      var kept := Needed(held, Here(), snapshots);
      RaiseFloor(img, capacity, held, lists, floor, roots, active, kept);
      held, lists, floor, roots := kept, {snapshots}, img[active].sb.sequence, {Here()};
    }

    /**
     * A superblock write that keeps the generation in force. Success settles the disk and
     * forgets everything but that generation and the live snapshots.
     */
    method Checkpoint() returns (ok: bool)
      requires Durable() && Ready()
      modifies this`sequence, this`active, this`held, this`lists, this`floor, this`roots, device
      ensures Durable() && Ready()
      ensures old(device.history) <= device.history
      ensures Archives() <= old(Archives())
      ensures !ok ==> device.FaultedSince(old(|device.history|))
      ensures CrashTail(device.history, old(|device.history|), capacity, {old(Current())}, old(Archives()))
      ensures !ok ==> held == old(held) && lists == old(lists) && floor == old(floor)
      ensures ok ==> held == Needed(old(held), Here(), snapshots) && lists == {snapshots}
      ensures Current() == old(Current())
      ensures ok ==> Fresh()
      ensures forall s :: FIRST_ALLOCATABLE <= s < |device.durable| ==>
                device.View().cur[s] == old(device.View()).cur[s]
    {
      hide Observe, Safe, CrashTail, ArchivesOf, SafeTail, OnDisk, WellFormed, SnapshotsHeld, Needed, HeldBelow, SuperOk;
      ghost var n := |device.history|;
      ReadyFacts();
      ReadySuper();
      LogLeadsHere(device.View(), capacity, held, lists, floor, Here(), active, SuperNow());
      SlotParity(device.View(), capacity, held, lists, floor, roots, active);
      ok := WriteSuperblock();
      SafeTailCrashes(device.history, n, capacity, held, lists, floor, roots, {Current()}, Archives());
      if ok {
        NeededBelow(held, Here(), snapshots, next);
        NeededArchives(held, Here(), snapshots, lists);
        ForgetOlder();
      }
    }

    // ---- Publishing a generation ----------------------------------------------------------

    /** The log durably names `root`, which memory is about to adopt. */
    ghost predicate Logged(root: Root, entries: seq<Entry>)
      reads this, device
    {
      && Parts() && active <= SUPERBLOCK_B && !recoveryRequired
      && Safe(device.View(), capacity, held, lists, floor, {root}) && roots == {root}
      && root in held && held[root].entries == entries
      && snapshots in lists && HeldBelow(held, next) && FIRST_ALLOCATABLE <= next <= |device.durable|
      && device.View() == Settled(device.View().cur)
      && device.View().cur[WAL_SECTOR] == Wal(root.sector, root.count, generation + 1)
      && device.View().cur[active].Super? && device.View().cur[active].sb.sequence == sequence >= floor
    }

    lemma LoggedFacts(root: Root, entries: seq<Entry>)
      requires Logged(root, entries)
      ensures root in held && HeldBelow(held, next) && snapshots in lists
    {
      hide Observe, Safe;
    }

    lemma LoggedDisk(root: Root, entries: seq<Entry>)
      requires Logged(root, entries)
      ensures Parts() && active <= SUPERBLOCK_B && floor <= sequence && roots == {root}
      ensures held[root].entries == entries && |entries| == root.count && SnapshotsHeld(snapshots, held)
      ensures Safe(device.View(), capacity, held, lists, floor, roots)
      ensures var p := device.View();
              && p.maybe[WAL_SECTOR] == {p.cur[WAL_SECTOR]} && p.cur[WAL_SECTOR] == Wal(root.sector, root.count, generation + 1)
              && p.cur[active].Super? && p.cur[active].sb.sequence == sequence
      ensures SuperOk(Superblock(sequence + 1, capacity, next, root.sector, root.count, generation + 1, snapshots),
                      |device.durable|, capacity, held, lists)
    {
      hide Observe, Safe, HeldBelow, WellFormed, OnDisk, SnapshotsHeld;
      SafeFacts(device.View(), capacity, held, lists, floor, roots);
    }

    /** Logs `root`; on failure the store is quarantined with either outcome possible. */
    method LogRoot(root: Root, entries: seq<Entry>) returns (ok: bool)
      requires Valid() && !recoveryRequired && generation < UINT64_MAX
      requires root in held && held[root].entries == entries
      modifies this`recoveryRequired, this`roots, device
      ensures Parts()
      ensures old(device.history) <= device.history
      ensures !ok ==> device.FaultedSince(old(|device.history|))
      ensures CrashTail(device.history, old(|device.history|), capacity, {old(Current()), held[root]}, Archives())
      ensures recoveryRequired == !ok
      ensures !ok ==> Valid() && roots <= {Here(), root}
      ensures ok ==> Logged(root, entries)
    {
      hide Observe, Safe, CrashTail, ArchivesOf, HeldBelow, MarksRoot, MarksSnapshots;
      ghost var p := device.View();
      var w := Wal(root.sector, root.count, generation + 1);
      LogSteps(p, capacity, held, lists, floor, Here(), root, w);
      ghost var n := |device.history|;
      ok := WriteThrough(WAL_SECTOR, w);
      assert SafeTail(device.history, n, capacity, held, lists, floor, {Here(), root});
      SafeTailCrashes(device.history, n, capacity, held, lists, floor, {Here(), root}, {Current(), held[root]}, Archives());
      if !ok {
        recoveryRequired := true;
        roots := if device.View().cur[WAL_SECTOR].Blank? then {Here()} else {Here(), root};
      } else {
        roots := {root};
      }
    }

    /** Clears the log; on a `safe` disk the newest superblock must already lead here. */
    method ClearLog(ghost safe: bool := true) returns (ok: bool)
      requires Parts()
      requires safe ==>
                 && active <= SUPERBLOCK_B
                 && Safe(device.View(), capacity, held, lists, floor, {Here()})
                 && device.View() == Settled(device.View().cur)
                 && device.View().cur[active].Super? && device.View().cur[active].sb.sequence == floor
                 && device.View().cur[1 - active].Super? && device.View().cur[1 - active].sb.sequence < floor
                 && SuperRoot(device.View().cur[active].sb) == Here()
      modifies device
      ensures Parts()
      ensures old(device.history) <= device.history
      ensures !ok ==> device.FaultedSince(old(|device.history|))
      ensures safe ==> SafeTail(device.history, old(|device.history|), capacity, held, lists, floor, {Here()})
      ensures safe ==> Safe(device.View(), capacity, held, lists, floor, {Here()})
      ensures ok ==> device.View() == Settled(old(device.View()).cur[WAL_SECTOR := Blank])
      ensures forall s :: 0 <= s < |device.durable| && s != WAL_SECTOR ==>
                device.View().cur[s] == old(device.View()).cur[s]
    {
      hide Observe, Safe, OnDisk;
      ghost var p := device.View();
      if safe {
        assert LeadsTo(p.maybe[SUPERBLOCK_A], {Blank}, floor, {Here()});
        assert LeadsTo(p.maybe[SUPERBLOCK_B], {Blank}, floor, {Here()});
        ClearSteps(p, capacity, held, lists, floor, {Here()});
      }
      ok := WriteThrough(WAL_SECTOR, Blank);
    }

    /** With `root` logged: switch memory to it and write the superblock that names it. */
    method Adopt(root: Root, entries: seq<Entry>) returns (ok: bool)
      requires Logged(root, entries)
      modifies this`table, this`tableSector, this`generation, this`sequence, this`active,
               this`held, this`lists, this`floor, this`roots, device
      ensures Parts() && active <= SUPERBLOCK_B
      ensures old(device.history) <= device.history
      ensures Archives() <= old(Archives())
      ensures !ok ==> device.FaultedSince(old(|device.history|))
      ensures CrashTail(device.history, old(|device.history|), capacity, {old(held)[root]}, old(Archives()))
      ensures table == entries && Here() == root && generation == old(generation) + 1
      ensures Safe(device.View(), capacity, held, lists, floor, {root}) && roots == {root}
      ensures root in held && held[root] == old(held)[root]
      ensures ok ==> held == Needed(old(held), root, snapshots) && lists == {snapshots}
      ensures ok ==> device.View() == Settled(device.View().cur)
      ensures ok ==> device.View().cur[active].Super? && device.View().cur[active].sb.sequence == sequence == floor
                     && SuperRoot(device.View().cur[active].sb) == root
      ensures ok ==> device.View().cur[1 - active].Super? && device.View().cur[1 - active].sb.sequence < floor
      ensures !ok ==> device.View().cur[WAL_SECTOR].Wal?
    {
      hide Observe, Safe, CrashTail, ArchivesOf, SafeTail, OnDisk, WellFormed, SnapshotsHeld, Needed, HeldBelow, UniqueIds, Logged, SuperOk;
      ghost var n := |device.history|;
      LoggedFacts(root, entries);
      LoggedDisk(root, entries);
      NeededArchives(held, root, snapshots, lists);
      table, tableSector, generation := entries, root.sector, generation + 1;
      SlotParity(device.View(), capacity, held, lists, floor, roots, active);
      ok := WriteSuperblock();
      SafeTailCrashes(device.history, n, capacity, held, lists, floor, roots, {held[root]}, Archives());
      if ok {
        ForgetOlder();
      }
    }

    /** With `root` logged: adopt it and clear the log, or quarantine the store. */
    method Switch(root: Root, entries: seq<Entry>) returns (committed: bool)
      requires Logged(root, entries)
      modifies this`table, this`tableSector, this`generation, this`sequence, this`active, this`recoveryRequired,
               this`held, this`lists, this`floor, this`roots, device
      ensures Durable() && (committed ==> Ready())
      ensures old(device.history) <= device.history
      ensures Archives() <= old(Archives())
      ensures !committed ==> device.FaultedSince(old(|device.history|))
      ensures CrashTail(device.history, old(|device.history|), capacity, {old(held)[root]}, old(Archives()))
      ensures table == entries && Here() == root && generation == old(generation) + 1
      ensures roots == {root} && root in held && held[root] == old(held)[root]
      ensures recoveryRequired == !committed
      ensures committed ==> held == Needed(old(held), root, snapshots) && lists == {snapshots}
    {
      hide Observe, Safe, CrashTail, ArchivesOf, OnDisk, WellFormed, SnapshotsHeld, Needed, HeldBelow, TableOnDisk;
      ghost var n := |device.history|;
      ghost var gens, archives := {held[root]}, Archives();
      LoggedFacts(root, entries);
      LoggedDisk(root, entries);
      NeededBelow(held, root, snapshots, next);
      NeededArchives(held, root, snapshots, lists);
      committed := Adopt(root, entries);
      if committed {
        ghost var switched := device.history;
        committed := ClearLog();
        SafeTailCrashes(device.history, |switched|, capacity, held, lists, floor, roots, gens, archives);
        JoinTails(switched, device.history, n, capacity, gens, archives);
      }
      recoveryRequired := !committed;
    }

    /** The rest of a commit once its root is logged; the live snapshots stay as they are. */
    method Complete(root: Root, entries: seq<Entry>) returns (committed: bool)
      requires Logged(root, entries) && MarksHeaders(allocator.Bits()) && MarksRoot(allocator.Bits(), root, entries)
      requires MarksSnapshots(allocator.Bits(), snapshots, held) && SnapshotsHeld(snapshots, held)
      modifies this`table, this`tableSector, this`generation, this`sequence, this`active, this`recoveryRequired,
               this`held, this`lists, this`floor, this`roots, device
      ensures Valid() && recoveryRequired == !committed
      ensures old(device.history) <= device.history
      ensures Archives() <= old(Archives())
      ensures !committed ==> device.FaultedSince(old(|device.history|))
      ensures CrashTail(device.history, old(|device.history|), capacity, {old(held)[root]}, old(Archives()))
      ensures Here() == root && roots == {root} && root in held && Current() == old(held)[root] && table == entries
      ensures committed ==> lists == {snapshots} && SnapshotsHeld(snapshots, held)
                            && Archive() == ArchiveOf(snapshots, old(held))
      ensures generation == old(generation) + 1
    {
      hide Observe, Safe, CrashTail, ArchivesOf, OnDisk, MarksRoot, WellFormed, ArchiveOf, Needed, MarksSnapshots, SnapshotsHeld, HeldBelow,
           MarksHeaders, Ready, Durable, Logged, Parts;
      LoggedFacts(root, entries);
      NeededKeepsArchive(held, root, snapshots, next, allocator.Bits());
      committed := Switch(root, entries);
    }

    /**
     * The commit: log the root, switch memory to it, write the superblock, clear the log.
     * Any failure quarantines the store; a crash anywhere finds the old or the new generation.
     */
    method Publish(root: Root, entries: seq<Entry>) returns (committed: bool)
      requires Valid() && !recoveryRequired && generation < UINT64_MAX
      requires root in held && held[root].entries == entries
      requires MarksRoot(allocator.Bits(), root, entries)
      modifies this`table, this`tableSector, this`generation, this`sequence, this`active, this`recoveryRequired,
               this`held, this`lists, this`floor, this`roots, device
      ensures Valid() && recoveryRequired == !committed
      ensures old(device.history) <= device.history
      ensures Archives() <= old(Archives())
      ensures !committed ==> device.FaultedSince(old(|device.history|))
      ensures CrashTail(device.history, old(|device.history|), capacity, {old(Current()), old(held)[root]}, old(Archives()))
      ensures SnapshotsHeld(old(snapshots), old(held))
      ensures committed ==> Here() == root && Current() == old(held)[root] && table == entries
      ensures committed ==> snapshots in lists && SnapshotsHeld(snapshots, held)
                            && Archive() == ArchiveOf(old(snapshots), old(held))
      ensures committed ==> generation == old(generation) + 1
      ensures !committed ==> roots <= {old(Here()), root} && roots <= held.Keys
                             && forall r :: r in roots ==> held[r] == old(held)[r]
    {
      hide Observe, Safe, CrashTail, ArchivesOf, OnDisk, MarksRoot, WellFormed, ArchiveOf, MarksSnapshots, SnapshotsHeld, HeldBelow,
           MarksHeaders, Logged, Ready, Durable, Parts;
      ReadyFacts();
      ghost var n := |device.history|;
      ghost var gens, archives := {Current(), held[root]}, Archives();
      committed := LogRoot(root, entries);
      if committed {
        ghost var logged := device.history;
        committed := Complete(root, entries);
        WidenTail(device.history, |logged|, capacity, {old(held)[root]}, archives, gens, archives);
        JoinTails(logged, device.history, n, capacity, gens, archives);
      }
    }

    // ---- Reading a generation -------------------------------------------------------------

    method ReadTableGeneration(root: Root) returns (r: Option<seq<Entry>>)
      requires Parts()
      ensures r == ReadTable(device.View().cur, root, capacity)
    {
      ghost var img := device.View().cur;
      if root.count > capacity ||
         (root.count != 0 && (root.sector < FIRST_ALLOCATABLE || root.sector + root.count > |device.durable|)) {
        return None;
      }
      var entries: seq<Entry> := [];
      var index := 0;
      while index < root.count
        invariant 0 <= index == |entries| <= root.count
        invariant forall i :: 0 <= i < index ==> img[root.sector + i] == TableEntry(entries[i]) && IsValidEntry(entries[i])
        invariant Sorted(entries)
      {
        var record := device.ReadSector(root.sector + index);
        if !record.TableEntry? || !IsValidEntry(record.entry) ||
           (index != 0 && Compare(entries[index - 1].id, record.entry.id) >= 0) {
          UnreadableAt(img, root, capacity, index);
          return None;
        }
        LessIsTransitive(entries, record.entry);
        entries := entries + [record.entry];
        index := index + 1;
      }
      TableReadableIsUnique(img, root, capacity, entries);
      return Some(entries);
    }

    // ---- Collection -----------------------------------------------------------------------

    method MarkGeneration(root: Root) returns (ok: bool)
      requires Parts()
      modifies allocator.bits
      ensures ok == (root.count == 0 || ReadTable(device.View().cur, root, capacity).Some?)
      ensures ok ==> forall s :: 0 <= s < allocator.bits.Length ==>
                (allocator.Bits()[s] <==> old(allocator.Bits())[s] || Reachable(device.View().cur, capacity, root, s))
    {
      if root.count == 0 {
        return true;
      }
      var entries := ReadTableGeneration(root);
      if entries.None? {
        return false;
      }
      ghost var b := allocator.Bits();
      allocator.SetRange(root.sector, root.count);
      var index := 0;
      while index < |entries.value|
        invariant 0 <= index <= |entries.value|
        invariant forall s :: 0 <= s < allocator.bits.Length ==>
                    (allocator.Bits()[s] <==> b[s] || Covers(root, entries.value[..index], s))
      {
        var e := entries.value[index];
        ghost var before := allocator.Bits();
        allocator.SetRange(e.first, e.count);
        CoversNext(root, entries.value, index);
        index := index + 1;
      }
      assert entries.value[..index] == entries.value;
      return true;
    }

    /** Marks exactly the headers, the generation in force and every held snapshot. */
    method RebuildBitmap() returns (ok: bool)
      requires Parts() && |snapshots| == SNAPSHOT_LIMIT
      modifies allocator.bits
      ensures var img := device.View().cur;
              && ok == ((Here().count == 0 || ReadTable(img, Here(), capacity).Some?)
                        && SnapshotsReadable(img, snapshots, capacity))
              && (ok ==> forall s :: 0 <= s < allocator.bits.Length ==>
                    (allocator.Bits()[s] <==> s < FIRST_ALLOCATABLE || Reachable(img, capacity, Here(), s)
                                              || ReachableFrom(img, capacity, snapshots, s)))
    {
      ghost var img := device.View().cur;
      allocator.ClearAll();
      allocator.SetRange(0, FIRST_ALLOCATABLE);
      ok := MarkGeneration(Root(tableSector, |table|));
      if !ok {
        return;
      }
      var slot := 0;
      while slot < SNAPSHOT_LIMIT
        invariant 0 <= slot <= SNAPSHOT_LIMIT == |snapshots|
        invariant SnapshotsReadable(img, snapshots[..slot], capacity)
        invariant forall s :: 0 <= s < allocator.bits.Length ==>
                    (allocator.Bits()[s] <==> s < FIRST_ALLOCATABLE || Reachable(img, capacity, Here(), s)
                                              || ReachableFrom(img, capacity, snapshots[..slot], s))
      {
        ReachableNext(img, capacity, snapshots, slot);
        if snapshots[slot].id != 0 {
          ok := MarkGeneration(SnapshotRoot(snapshots[slot]));
          if !ok {
            return;
          }
        }
        slot := slot + 1;
      }
      assert snapshots[..slot] == snapshots;
    }

    /** Reclaims every sector that neither the table in force nor a live snapshot reaches. */
    method Collect() returns (ok: bool)
      requires Valid()
      modifies allocator.bits
      ensures Valid() && ok == !recoveryRequired
      ensures ok ==> snapshots in lists && SnapshotsHeld(snapshots, held)
      ensures ok ==> forall s :: 0 <= s < allocator.bits.Length ==>
                (allocator.Bits()[s] <==> s < FIRST_ALLOCATABLE || Covers(Here(), table, s) || InArchive(snapshots, held, s))
    {
      hide Observe, Safe, WellFormed, SnapshotsHeld;
      if recoveryRequired {
        return false;
      }
      CollectFacts(device.View(), capacity, held, lists, floor, roots, Here(), snapshots);
      ok := RebuildBitmap();
    }

    // ---- Snapshots ------------------------------------------------------------------------

    /** Writes a superblock with another snapshot list, or restores the one in memory. */
    method Relist(l: seq<Snapshot>, newGeneration: nat) returns (ok: bool)
      requires Valid() && !recoveryRequired
      requires SnapshotsHeld(l, held) && MarksSnapshots(allocator.Bits(), l, held)
      modifies this`snapshots, this`generation, this`sequence, this`active, this`held, this`lists, this`floor, this`roots, device
      ensures Valid()
      ensures old(device.history) <= device.history
      ensures !ok ==> device.FaultedSince(old(|device.history|))
      ensures CrashTail(device.history, old(|device.history|), capacity, {old(Current())}, old(Archives()) + {ArchiveOf(l, old(held))})
      ensures Archives() <= old(Archives()) + {ArchiveOf(l, old(held))}
      ensures Here() == old(Here()) && Here() in held && Current() == old(Current())
      ensures snapshots in lists && SnapshotsHeld(snapshots, held)
      ensures ok ==> snapshots == l && generation == newGeneration && Archive() == ArchiveOf(l, old(held))
                     && Archives() == {Archive()}
      ensures !ok ==> snapshots == old(snapshots) && generation == old(generation) && held == old(held)
    {
      hide Observe, Safe, CrashTail, ArchivesOf, OnDisk, WellFormed, MarksRoot, MarksSnapshots, ArchiveOf, Needed, SnapshotsHeld, HeldBelow;
      var saved, savedGeneration := snapshots, generation;
      ReadyFacts();
      WidenLists(device.View(), capacity, held, lists, floor, roots, l);
      NeededKeepsArchive(held, Here(), l, next, allocator.Bits());
      NeededArchives(held, Here(), l, {l});
      MoreArchives(held, lists, l);
      snapshots, generation := l, newGeneration;
      lists := lists + {l};
      ok := Checkpoint();
      if !ok {
        snapshots, generation := saved, savedGeneration;
      }
    }

    /** What a snapshot needs besides working I/O. */
    ghost predicate Snapshotable()
      reads this
    {
      && generation < UINT64_MAX && table != []
      && (exists i :: 0 <= i < |snapshots| && snapshots[i].id == 0)
      && (forall i :: 0 <= i < |snapshots| ==> snapshots[i].id != generation + 1)
    }

    /** Names the generation in force; the archive gains exactly that entry. */
    method SnapshotCreate() returns (ok: bool, id: nat)
      requires Valid()
      modifies this`snapshots, this`generation, this`sequence, this`active, this`held, this`lists, this`floor, this`roots, device
      ensures Valid()
      ensures old(device.history) <= device.history
      ensures !ok ==> snapshots == old(snapshots) && generation == old(generation) && held == old(held)
      ensures recoveryRequired ==> !ok && device.history == old(device.history)
      ensures !recoveryRequired ==>
                && Here() == old(Here()) && Here() in held && Current() == old(Current())
                && SnapshotsHeld(snapshots, held) && SnapshotsHeld(old(snapshots), old(held))
                && (ok ==> && id == old(generation) + 1 == generation && id !in ArchiveOf(old(snapshots), old(held))
                           && Archive() == ArchiveOf(old(snapshots), old(held))[id := Current()] && Archives() == {Archive()})
                && (ok ==> Added(old(snapshots), snapshots, id))
                && (!ok && !device.FaultedSince(old(|device.history|)) ==> Archives() == old(Archives()))
                && (old(Snapshotable()) && !device.FaultedSince(old(|device.history|)) ==> ok)
                && (!old(Snapshotable()) ==> !ok && device.history == old(device.history) && Archives() == old(Archives()))
                && (var archives := old(Archives()) + {ArchiveOf(old(snapshots), old(held))[old(generation) + 1 := Current()]};
                    Archives() <= archives
                    && CrashTail(device.history, old(|device.history|), capacity, {Current()}, archives))
    {
      hide Observe, Safe, CrashTail, ArchivesOf, OnDisk, WellFormed, MarksRoot, MarksSnapshots, ArchiveOf, SnapshotsHeld, HeldBelow,
           Durable, ReadyWith, MarksHeaders;
      id := 0;
      if recoveryRequired {
        return false, 0;
      }
      ReadyFacts();
      ReadyTable();
      ListedFacts(snapshots, held);
      EmptyTail(device.history, capacity, {Current()}, Archives() + {Archive()[generation + 1 := Current()]});
      HeldRoot(Here());
      if generation >= UINT64_MAX || tableSector < FIRST_ALLOCATABLE || |table| == 0 {
        return false, 0;
      }
      var slot := FreeSlot(snapshots, generation + 1);
      if slot == SNAPSHOT_LIMIT {
        return false, 0;
      }
      id := generation + 1;
      var entry := Snapshot(id, tableSector, |table|);
      AddSnapshot(snapshots, slot, entry, held, allocator.Bits());
      ok := Relist(snapshots[slot := entry], id);
    }

    /** Forgets a snapshot; the archive loses exactly that entry. */
    method SnapshotDiscard(id: nat) returns (ok: bool)
      requires Valid()
      modifies this`snapshots, this`generation, this`sequence, this`active, this`held, this`lists, this`floor, this`roots, device
      ensures Valid()
      ensures old(device.history) <= device.history
      ensures !ok ==> snapshots == old(snapshots) && held == old(held)
      ensures recoveryRequired ==> !ok && device.history == old(device.history)
      ensures !recoveryRequired ==>
                && Here() == old(Here()) && Here() in held && Current() == old(Current())
                && SnapshotsHeld(snapshots, held) && SnapshotsHeld(old(snapshots), old(held))
                && (ok ==> id in ArchiveOf(old(snapshots), old(held)) && Archives() == {Archive()}
                           && Archive() == ArchiveOf(old(snapshots), old(held)) - {id})
                && (!ok && !device.FaultedSince(old(|device.history|)) ==> Archives() == old(Archives()))
                && (var archives := old(Archives()) + {ArchiveOf(old(snapshots), old(held)) - {id}};
                    Archives() <= archives
                    && CrashTail(device.history, old(|device.history|), capacity, {Current()}, archives))
                && (id in ArchiveOf(old(snapshots), old(held)) && !device.FaultedSince(old(|device.history|)) ==> ok)
    {
      hide Observe, Safe, CrashTail, ArchivesOf, OnDisk, WellFormed, MarksRoot, MarksSnapshots, ArchiveOf, SnapshotsHeld, HeldBelow,
           Durable, ReadyWith, MarksHeaders;
      if recoveryRequired {
        return false;
      }
      ReadyFacts();
      ReadyTable();
      ListedFacts(snapshots, held);
      EmptyTail(device.history, capacity, {Current()}, Archives() + {Archive() - {id}});
      if id == 0 {
        NotListed(snapshots, held, id);
        return false;
      }
      var slot := SlotOf(snapshots, id);
      if slot == SNAPSHOT_LIMIT {
        NotListed(snapshots, held, id);
        return false;
      }
      DropSnapshot(snapshots, slot, held, allocator.Bits());
      ok := Relist(snapshots[slot := NO_SNAPSHOT], generation);
    }

    /** Returns to a snapshot: table and object bytes exactly as when it was created. */
    method SnapshotRollback(id: nat) returns (ok: bool)
      requires Valid()
      modifies this`table, this`tableSector, this`generation, this`sequence, this`active, this`recoveryRequired,
               this`held, this`lists, this`floor, this`roots, device
      ensures Valid()
      ensures old(device.history) <= device.history
      ensures old(recoveryRequired) ==> !ok && recoveryRequired && device.history == old(device.history)
      ensures !old(recoveryRequired) ==>
                var archive := ArchiveOf(snapshots, old(held));
                && snapshots in old(lists) && SnapshotsHeld(snapshots, old(held))
                && Archives() <= old(Archives())
                && (ok ==> id in archive && !recoveryRequired && Current() == archive[id] && generation == old(generation) + 1 <= UINT64_MAX
                           && SnapshotsHeld(snapshots, held) && Archive() == archive)
                && (!ok ==> recoveryRequired || (held == old(held) && Here() == old(Here()) && table == old(table)))
                && (recoveryRequired ==> device.FaultedSince(old(|device.history|)) && id in archive && Outcomes() <= {old(Current()), archive[id]})
                && (id in archive && old(generation) < UINT64_MAX && !device.FaultedSince(old(|device.history|)) ==> ok)
                && CrashTail(device.history, old(|device.history|), capacity,
                             if id in archive then {old(Current()), archive[id]} else {old(Current())}, old(Archives()))
    {
      hide Observe, Safe, CrashTail, ArchivesOf, OnDisk, WellFormed, MarksRoot, HeldBelow, ArchiveOf, SnapshotsHeld, Durable, ReadyWith;
      if recoveryRequired {
        return false;
      }
      ReadyFacts();
      ReadyTable();
      ListedFacts(snapshots, held);
      ghost var archive := ArchiveOf(snapshots, held);
      EmptyTail(device.history, capacity, if id in archive then {Current(), archive[id]} else {Current()}, Archives());
      if id == 0 || generation >= UINT64_MAX {
        NotListed(snapshots, held, 0);
        return false;
      }
      var slot := SlotOf(snapshots, id);
      if slot == SNAPSHOT_LIMIT {
        NotListed(snapshots, held, id);
        return false;
      }
      ArchiveAt(snapshots, held, slot);
      HeldRoot(SnapshotRoot(snapshots[slot]));
      var root := SnapshotRoot(snapshots[slot]);
      if root.sector < FIRST_ALLOCATABLE || root.count == 0 || root.count > capacity {
        return false;
      }
      var candidate := ReadTableGeneration(root);
      if candidate.None? {
        return false;
      }
      ok := Publish(root, candidate.value);
    }

    // ---- Writing a new generation -----------------------------------------------------------

    /** Writes consecutive free sectors: invisible to recovery throughout. */
    method BufferRun(first: nat, records: seq<Record>) returns (ok: bool)
      requires Parts() && Safe(device.View(), capacity, held, lists, floor, roots)
      requires FIRST_ALLOCATABLE <= first && first + |records| <= |device.durable|
      requires forall s :: first <= s < first + |records| ==> Untouched(held, s)
      modifies device
      ensures Parts() && Safe(device.View(), capacity, held, lists, floor, roots)
      ensures old(device.history) <= device.history
      ensures !ok ==> device.FaultedSince(old(|device.history|))
      ensures SafeTail(device.history, old(|device.history|), capacity, held, lists, floor, roots)
      ensures SameOutside(old(device.View()).cur, device.View().cur, first, |records|)
      ensures ok ==> device.View().cur[first..first + |records|] == records
    {
      hide Observe, Safe, Untouched;
      ghost var img := device.View().cur;
      ghost var n := |device.history|;
      var index := 0;
      while index < |records|
        invariant 0 <= index <= |records|
        invariant Parts() && |device.durable| == |img|
        invariant Safe(device.View(), capacity, held, lists, floor, roots)
        invariant old(device.history) <= device.history
        invariant SafeTail(device.history, n, capacity, held, lists, floor, roots)
        invariant SameOutside(img, device.View().cur, first, |records|)
        invariant forall i :: 0 <= i < index ==> device.View().cur[first + i] == records[i]
      {
        WriteOutside(device.View(), capacity, held, lists, floor, roots, first + index, records[index]);
        ok := device.WriteSector(first + index, records[index]);
        if !ok {
          return;
        }
        index := index + 1;
      }
      ok := true;
    }

    /** Writes consecutive free sectors and flushes. */
    method WriteRun(first: nat, records: seq<Record>) returns (ok: bool)
      requires Durable() && Ready()
      requires FIRST_ALLOCATABLE <= first && first + |records| <= |device.durable|
      requires forall s :: first <= s < first + |records| ==> Untouched(held, s)
      modifies device
      ensures Durable() && Ready()
      ensures old(device.history) <= device.history
      ensures !ok ==> device.FaultedSince(old(|device.history|))
      ensures CrashTail(device.history, old(|device.history|), capacity, {Current()}, Archives())
      ensures SameOutside(old(device.View()).cur, device.View().cur, first, |records|)
      ensures ok ==> device.View() == Settled(device.View().cur)
      ensures ok ==> device.View().cur[first..first + |records|] == records
    {
      hide Observe, Safe, CrashTail, ArchivesOf, Untouched, HeldBelow;
      ghost var n := |device.history|;
      ok := BufferRun(first, records);
      if ok {
        FlushKeepsSafe(device.View(), capacity, held, lists, floor, roots);
        ok := device.Flush();
      }
      SafeTailCrashes(device.history, n, capacity, held, lists, floor, roots, {Current()}, Archives());
    }

    /** Every free sector of `b` is outside everything held. */
    ghost predicate Protects(b: seq<bool>)
      reads this`held
    {
      forall s :: 0 <= s < |b| && !b[s] ==> Untouched(held, s)
    }

    lemma FreeIsUntouched(b: seq<bool>, first: nat, count: nat)
      requires Protects(b) && FreeRun(b, first, count)
      ensures forall s :: first <= s < first + count ==> Untouched(held, s)
    {
      hide Untouched;
    }

    method WriteObjects(placed: seq<Staged>, ghost b: seq<bool>) returns (ok: bool)
      requires Durable() && Ready() && device.View() == Settled(device.View().cur)
      requires |b| == |device.durable| && Protects(b) && PlacedIn(b, placed)
      requires forall i :: 0 <= i < |placed| ==> |BlocksFor(placed[i].request, placed[i].version)| == placed[i].count
      modifies device
      ensures Durable() && Ready()
      ensures old(device.history) <= device.history
      ensures !ok ==> device.FaultedSince(old(|device.history|))
      ensures CrashTail(device.history, old(|device.history|), capacity, {Current()}, Archives())
      ensures SameExcept(old(device.View()).cur, device.View().cur, placed)
      ensures ok ==> device.View() == Settled(device.View().cur)
      ensures ok ==> Written(device.View().cur, placed)
    {
      hide Observe, Safe, CrashTail, ArchivesOf, Untouched, HeldBelow, BlocksFor, Written, SameExcept, SameOutside;
      ghost var img := device.View().cur;
      ghost var n := |device.history|;
      EmptyTail(device.history, capacity, {Current()}, Archives());
      WrittenNone(img, placed);
      var index := 0;
      while index < |placed|
        invariant 0 <= index <= |placed|
        invariant device.Valid() && device.View() == Settled(device.View().cur)
        invariant Durable() && Ready() && |device.durable| == |img|
        invariant old(device.history) <= device.history
        invariant CrashTail(device.history, n, capacity, {Current()}, Archives())
        invariant SameExcept(img, device.View().cur, placed)
        invariant Written(device.View().cur, placed[..index])
      {
        var p := placed[index];
        ghost var before, h := device.View().cur, device.history;
        ok := WriteRun(p.first, BlocksFor(p.request, p.version));
        JoinTails(h, device.history, n, capacity, {Current()}, Archives());
        WrittenNext(img, before, device.View().cur, b, placed, index);
        if !ok {
          return;
        }
        index := index + 1;
      }
      assert placed[..index] == placed;
      ok := true;
    }

    /** Writes the batch's objects, then the table that lists them. */
    method WriteBatch(placed: seq<Staged>, candidate: seq<Entry>, root: Root, ghost b: seq<bool>) returns (ok: bool)
      requires Durable() && Ready() && device.View() == Settled(device.View().cur)
      requires |b| == |device.durable| && Protects(b) && PlacedIn(b, Runs(placed, root))
      requires forall i :: 0 <= i < |placed| ==> StagedOk(placed[i], cacheCapacity)
      requires |candidate| == root.count && (root.count == 0 ==> root.sector == 0)
      modifies device
      ensures Durable() && Ready()
      ensures old(device.history) <= device.history
      ensures !ok ==> device.FaultedSince(old(|device.history|))
      ensures CrashTail(device.history, old(|device.history|), capacity, {Current()}, Archives())
      ensures |device.durable| == old(|device.durable|)
      ensures ok && old(Fresh()) ==> Fresh()
      ensures ok ==> BatchWritten(old(device.View()).cur, device.View().cur, b, placed, root)
      ensures ok ==> TableOnDisk(device.View().cur, root, candidate)
    {
      hide Observe, Safe, CrashTail, ArchivesOf, Untouched, HeldBelow, BlocksFor, Written, SameExcept, SameOutside,
           TableOnDisk, TableRecords, Durable, ReadyWith, StagedOk, PlacedIn, Runs, BatchWritten, Protects, FreeRun;
      ReadyFacts();
      ghost var img, n := device.View().cur, |device.history|;
      PlacedRuns(b, placed, root, cacheCapacity);
      ok := WriteObjects(placed, b);
      ReadyFacts();
      HeadersSame(img, device.View().cur, b, placed);
      if !ok {
        return;
      }
      ghost var middle, h := device.View().cur, device.history;
      EmptyTail(h, capacity, {Current()}, Archives());
      if root.count != 0 {
        FreeRunEnds(b, root.sector, root.count);
        FreeIsUntouched(b, root.sector, root.count);
        ok := WriteRun(root.sector, TableRecords(candidate));
        ReadyFacts();
        JoinTails(h, device.history, n, capacity, {Current()}, Archives());
      } else {
        SameTrivially(middle);
      }
      if ok {
        TableWritten(img, middle, device.View().cur, b, placed, root);
        RecordsAreTable(device.View().cur, root, candidate);
      }
      HeadersStill(middle, device.View().cur, root);
    }

    /** The state a successful checkpoint leaves: one superblock counts, and it names `next`. */
    ghost predicate Fresh()
      requires Parts()
      reads this, device
    {
      var p := device.View();
      && active <= SUPERBLOCK_B && floor == sequence
      && p == Settled(p.cur)
      && p.cur[active].Super? && p.cur[active].sb.sequence == sequence && p.cur[active].sb.next == next
      && p.cur[1 - active].Super? && p.cur[1 - active].sb.sequence < sequence
    }

    lemma FreshSettled()
      requires Parts() && Fresh()
      ensures device.View() == Settled(device.View().cur)
    {
      hide Observe;
    }

    /** A generation complete on the settled disk joins what is held. */
    ghost method HoldNew(root: Root, g: Generation)
      requires Valid() && !recoveryRequired && Fresh()
      requires OnDisk(device.View().cur, root, g) && WellFormed(g, capacity)
      requires root in held ==> root.count == 0
      requires root.sector + root.count <= next
      modifies this`held
      ensures Valid() && Fresh() && held == old(held)[root := g] && Current() == old(Current())
      ensures SnapshotsHeld(snapshots, old(held)) && SnapshotsHeld(snapshots, held)
      ensures ArchiveOf(snapshots, held) == ArchiveOf(snapshots, old(held)) && Archives() == old(Archives())
    {
      hide Observe, Safe, WellFormed, OnDisk, MarksRoot, ArchiveOf, SnapshotsHeld, MarksSnapshots, HeldBelow;
      var p := device.View();
      SafeFacts(p, capacity, held, lists, floor, roots);
      if root in held {
        EmptyIsEmpty(p.cur, root, g, held[root]);
      }
      SettledHolds(p.cur, root, g);
      HoldMoreSnapshots(held, root, g, snapshots, allocator.Bits());
      HoldMoreBelow(held, root, g, next);
      HoldMoreArchives(held, root, g, lists);
      HoldMore(p, capacity, held, lists, floor, roots, root, g);
      held := held[root := g];
    }

    /** Publishes a generation that is complete on the settled disk. */
    method PublishNew(root: Root, candidate: seq<Entry>, ghost post: Generation) returns (committed: bool)
      requires Valid() && !recoveryRequired && Fresh() && generation < UINT64_MAX
      requires OnDisk(device.View().cur, root, post) && WellFormed(post, capacity) && post.entries == candidate
      requires root in held ==> root.count == 0
      requires root.sector + root.count <= next && MarksRoot(allocator.Bits(), root, candidate)
      modifies this`table, this`tableSector, this`generation, this`sequence, this`active, this`recoveryRequired,
               this`held, this`lists, this`floor, this`roots, device
      ensures Valid() && recoveryRequired == !committed
      ensures old(device.history) <= device.history
      ensures Archives() <= old(Archives())
      ensures !committed ==> device.FaultedSince(old(|device.history|))
      ensures CrashTail(device.history, old(|device.history|), capacity, {old(Current()), post}, old(Archives()))
      ensures SnapshotsHeld(snapshots, old(held))
      ensures committed ==> Current() == post && table == candidate && snapshots in lists && generation == old(generation) + 1
                            && SnapshotsHeld(snapshots, held) && Archive() == ArchiveOf(snapshots, old(held))
      ensures !committed ==> Outcomes() <= {old(Current()), post}
    {
      hide Observe, Safe, CrashTail, ArchivesOf, HeldBelow, WellFormed, OnDisk, MarksRoot, MarksSnapshots, ArchiveOf, SnapshotsHeld;
      HoldNew(root, post);
      committed := Publish(root, candidate);
    }

    /**
     * Writes the batch, then publishes the generation it completes. A crash anywhere finds
     * the current generation or the new one.
     */
    method CommitBatch(placed: seq<Staged>, candidate: seq<Entry>, root: Root, ghost b: seq<bool>)
      returns (result: BatchResult, ghost post: Generation)
      requires Valid() && !recoveryRequired && Fresh() && generation < UINT64_MAX
      requires |b| == |device.durable| && Protects(b) && PlacedIn(b, Runs(placed, root))
      requires Taken(allocator.Bits(), b, Runs(placed, root)) && MarksRoot(b, Here(), table)
      requires forall i :: 0 <= i < |placed| ==> StagedOk(placed[i], cacheCapacity)
      requires |candidate| == root.count <= capacity && (root.count == 0 ==> root.sector == 0)
      requires FromBatch(candidate, table, placed) && root.sector + root.count <= next
      modifies this`table, this`tableSector, this`generation, this`sequence, this`active, this`recoveryRequired,
               this`held, this`lists, this`floor, this`roots, device
      ensures Valid() && recoveryRequired == result.RecoveryRequired?
      ensures old(device.history) <= device.history
      ensures Archives() <= old(Archives())
      ensures CrashTail(device.history, old(|device.history|), capacity, {old(Current()), post}, old(Archives()))
      ensures !result.Committed? ==> device.FaultedSince(old(|device.history|))
      ensures result.Rejected? ==> held == old(held) && lists == old(lists) && Here() == old(Here()) && table == old(table)
                                   && generation == old(generation) && post == old(Current())
      ensures SnapshotsHeld(snapshots, old(held))
      ensures result.Committed? ==> Current() == post && table == candidate && snapshots in lists && generation == old(generation) + 1
                                    && SnapshotsHeld(snapshots, held) && Archive() == ArchiveOf(snapshots, old(held))
      ensures result.RecoveryRequired? ==> Outcomes() <= {old(Current()), post}
      ensures !result.Rejected? ==>
                exists after :: BatchWritten(old(device.View()).cur, after, b, placed, root)
                                && AllStored(after, candidate) && post == GenerationOf(after, candidate)
    {
      hide Observe, Safe, CrashTail, ArchivesOf, Untouched, HeldBelow, BlocksFor, BatchWritten, Taken, PlacedIn, StagedOk, TableOnDisk, Runs,
           WellFormed, OnDisk, AllStored, GenerationOf, MarksRoot, MarksSnapshots, ArchiveOf, FromBatch, SnapshotsHeld,
           Durable, ReadyWith, Fresh;
      ReadyFacts();
      ReadyTable();
      ReadyOnDisk();
      FreshSettled();
      ghost var img, n := device.View().cur, |device.history|;
      ghost var pre, archives := Current(), Archives();
      post := pre;
      var ok := WriteBatch(placed, candidate, root, b);
      ReadyFacts();
      if !ok {
        assert {pre, post} == {pre};
        return Rejected, post;
      }
      ghost var after, h := device.View().cur, device.history;
      NextGeneration(img, after, b, placed, root, Here(), pre, capacity, cacheCapacity, candidate);
      post := GenerationOf(after, candidate);
      AdoptNew(b, allocator.Bits(), placed, root, candidate, table, Here(), held);
      WidenTail(h, n, capacity, {pre}, archives, {pre, post}, archives);
      var committed := PublishNew(root, candidate, post);
      JoinTails(h, device.history, n, capacity, {pre, post}, archives);
      result := if committed then Committed else RecoveryRequired;
    }

    // ---- Placing a batch ----------------------------------------------------------------------

    /** Gives the runs of an abandoned batch back, exactly restoring the bitmap. */
    method Release(runs: seq<Staged>, ghost b: seq<bool>)
      requires PlacedIn(b, runs) && Taken(allocator.Bits(), b, runs)
      modifies allocator.bits
      ensures allocator.Bits() == b
    {
      hide Apart, FreeRun, Cleared;
      var index := 0;
      while index < |runs|
        invariant 0 <= index <= |runs|
        invariant PlacedIn(b, runs[index..]) && Taken(allocator.Bits(), b, runs[index..])
      {
        UnplaceFirst(b, allocator.Bits(), runs[index..]);
        assert runs[index..][1..] == runs[index + 1..];
        allocator.ClearRange(runs[index].first, runs[index].count);
        index := index + 1;
      }
    }

    /** Allocates an extent for each staged object, first fit, raising `next` as needed. */
    method PlaceObjects(staged: seq<Staged>, ghost count: nat) returns (ok: bool, placed: seq<Staged>)
      requires next <= allocator.bits.Length && forall i :: 0 <= i < |staged| ==> staged[i].count != 0
      modifies this`next, allocator.bits
      ensures old(next) <= next <= allocator.bits.Length
      ensures |placed| <= |staged| && forall i :: 0 <= i < |placed| ==> placed[i] == staged[i].(first := placed[i].first)
      ensures PlacedIn(old(allocator.Bits()), placed) && Taken(allocator.Bits(), old(allocator.Bits()), placed)
      ensures ok ==> |placed| == |staged|
                     && (AllFit(old(allocator.Bits()), Needs(staged, count))
                         <==> AllFit(allocator.Bits(), if count == 0 then [] else [count]))
      ensures ok && AllFit(old(allocator.Bits()), Needs(staged, count)) ==>
                FitAll(allocator.Bits(), if count == 0 then [] else [count]) == FitAll(old(allocator.Bits()), Needs(staged, count))
      ensures !ok ==> !AllFit(old(allocator.Bits()), Needs(staged, count))
      ensures HighWater(old(next), next, placed)
    {
      hide Apart, FitAll, FreeRun, Marked, InPlaced, PlacedIn, Taken, HighWater;
      NoWater(next);
      ghost var b, needs := allocator.Bits(), Needs(staged, count);
      NothingPlaced(b);
      placed := [];
      while |placed| < |staged|
        invariant |placed| <= |staged|
        invariant old(next) <= next <= allocator.bits.Length
        invariant forall i :: 0 <= i < |placed| ==> placed[i] == staged[i].(first := placed[i].first)
        invariant PlacedIn(b, placed) && Taken(allocator.Bits(), b, placed)
        invariant AllFit(b, needs) <==> AllFit(allocator.Bits(), needs[|placed|..])
        invariant AllFit(b, needs) ==> FitAll(allocator.Bits(), needs[|placed|..]) == FitAll(b, needs)
        invariant HighWater(old(next), next, placed)
      {
        var one := staged[|placed|];
        ghost var bits, rest := allocator.Bits(), needs[|placed|..];
        assert rest[0] == one.count && rest[1..] == needs[|placed| + 1..];
        var found, first := allocator.Allocate(one.count);
        if !found {
          return false, placed;
        }
        FitNext(bits, rest, first);
        if AllFit(b, needs) {
          FitAllNext(bits, rest, first);
        }
        PlaceNext(b, bits, placed, one.(first := first));
        FreeRunEnds(bits, first, one.count);
        HigherWater(old(next), next, placed, one.(first := first));
        placed := placed + [one.(first := first)];
        if first + one.count > next {
          next := first + one.count;
        }
      }
      ok := true;
      assert needs[|placed|..] == if count == 0 then [] else [count];
    }

    /** Allocates the batch and a run for the table that will list it, or nothing. */
    method Place(staged: seq<Staged>, count: nat) returns (ok: bool, placed: seq<Staged>, root: Root)
      requires next <= allocator.bits.Length && forall i :: 0 <= i < |staged| ==> staged[i].count != 0
      modifies this`next, allocator.bits
      ensures old(next) <= next <= allocator.bits.Length
      ensures ok <==> AllFit(old(allocator.Bits()), Needs(staged, count))
      ensures ok ==> PlacedAs(placed, staged)
      ensures ok ==> root.count == count && (count == 0 ==> root.sector == 0) && root.sector + root.count <= next
      ensures ok ==> PlacedIn(old(allocator.Bits()), Runs(placed, root))
                     && Taken(allocator.Bits(), old(allocator.Bits()), Runs(placed, root))
      ensures ok ==> allocator.Bits() == FitAll(old(allocator.Bits()), Needs(staged, count))
      ensures ok ==> HighWater(old(next), next, Runs(placed, root))
      ensures !ok ==> allocator.Bits() == old(allocator.Bits()) && next == old(next)
    {
      hide Apart, FreeRun, Cleared, Marked, InPlaced, PlacedIn, Taken, Needs;
      ghost var b := allocator.Bits();
      var savedNext := next;
      root := EMPTY_ROOT;
      ok, placed := PlaceObjects(staged, count);
      if ok && count != 0 {
        ghost var bits := allocator.Bits();
        var first;
        ok, first := allocator.Allocate(count);
        if ok {
          FitNext(bits, [count], first);
          FitAllNext(bits, [count], first);
          FreeRunEnds(bits, first, count);
          root := Root(first, count);
          PlaceNext(b, bits, placed, TableRun(root));
          HigherWater(old(next), next, placed, TableRun(root));
          if first + count > next {
            next := first + count;
          }
        }
      }
      if !ok {
        Release(placed, b);
        next := savedNext;
      }
    }

    /**
     * Announces the batch's sectors in a superblock, writes it and publishes it; an
     * abandoned batch gives its sectors back.
     */
    method Install(placed: seq<Staged>, candidate: seq<Entry>, root: Root, ghost b: seq<bool>)
      returns (result: BatchResult, ghost post: Generation)
      requires Durable() && Ready() && !recoveryRequired && generation < UINT64_MAX
      requires |b| == |device.durable| && GuardedBy(b)
      requires PlacedIn(b, Runs(placed, root)) && Taken(allocator.Bits(), b, Runs(placed, root))
      requires forall i :: 0 <= i < |placed| ==> StagedOk(placed[i], cacheCapacity)
      requires |candidate| == root.count <= capacity && (root.count == 0 ==> root.sector == 0)
      requires FromBatch(candidate, table, placed) && root.sector + root.count <= next
      modifies this`table, this`tableSector, this`generation, this`sequence, this`active, this`recoveryRequired,
               this`held, this`lists, this`floor, this`roots, device, allocator.bits
      ensures Valid() && recoveryRequired == result.RecoveryRequired?
      ensures old(device.history) <= device.history
      ensures Archives() <= old(Archives())
      ensures CrashTail(device.history, old(|device.history|), capacity, {old(Current()), post}, old(Archives()))
      ensures !result.Committed? ==> device.FaultedSince(old(|device.history|))
      ensures result.Rejected? ==> allocator.Bits() == b && Here() == old(Here()) && table == old(table)
                                   && Current() == old(Current()) && post == Current() && held.Keys <= old(held).Keys
                                   && generation == old(generation)
      ensures SnapshotsHeld(snapshots, old(held))
      ensures !result.RecoveryRequired? ==>
                snapshots in lists && SnapshotsHeld(snapshots, held) && Archive() == ArchiveOf(snapshots, old(held))
      ensures result.Committed? ==> Current() == post && table == candidate && generation == old(generation) + 1
                                    && allocator.Bits() == old(allocator.Bits())
      ensures result.RecoveryRequired? ==> Outcomes() <= {old(Current()), post}
      ensures !result.Rejected? ==>
                exists img, after :: OnDisk(img, old(Here()), old(Current())) && BatchWritten(img, after, b, placed, root)
                                     && AllStored(after, candidate) && post == GenerationOf(after, candidate)
    {
      hide Observe, Safe, CrashTail, ArchivesOf, HeldBelow, BatchWritten, Taken, PlacedIn, StagedOk, Runs, Needed, MarksHeaders, Untouched,
           WellFormed, OnDisk, AllStored, GenerationOf, MarksRoot, MarksSnapshots, ArchiveOf, FromBatch, SnapshotsHeld,
           Durable, ReadyWith, Fresh;
      ReadyFacts();
      ReadyOnDisk();
      ghost var n, pre, archives, was := |device.history|, Current(), Archives(), held;
      post := pre;
      NeededKeepsArchive(held, Here(), snapshots, next, b);
      TakenGuards(b, allocator.Bits(), placed, root, Here(), table, snapshots, Needed(held, Here(), snapshots));
      var ok := Checkpoint();
      assert {pre, post} == {pre};
      if !ok {
        Release(Runs(placed, root), b);
        return Rejected, post;
      }
      ghost var h, kept := device.history, Archives();
      NeededArchives(was, Here(), snapshots, old(lists));
      NeededProtects(was, Here(), snapshots, b);
      ReadyFacts();
      ReadyOnDisk();
      result, post := CommitBatch(placed, candidate, root, b);
      WidenTail(h, n, capacity, {pre}, archives, {pre, post}, archives);
      WidenTail(device.history, |h|, capacity, {pre, post}, kept, {pre, post}, archives);
      JoinTails(h, device.history, n, capacity, {pre, post}, archives);
      if result.Rejected? {
        Release(Runs(placed, root), b);
      }
    }

    // ---- Put and delete -----------------------------------------------------------------------

    /** A batch that only a device fault can keep from being committed. */
    ghost predicate Admissible(requests: seq<PutRequest>)
      reads this, allocator.bits
    {
      && 0 < |requests| <= BATCH_MAX
      && generation < UINT64_MAX
      && Stageable(table, requests, capacity, cacheCapacity)
      && var staged := StageAll(table, requests);
         AllFit(allocator.Bits(), Needs(staged, |MergeAll(table, EntriesOf(staged))|))
    }

    /**
     * Stores a batch atomically. A crash anywhere finds the state before or the state after;
     * the state after has each request's next version and bytes, and all else unchanged.
     */
    method PutMany(requests: seq<PutRequest>) returns (result: BatchResult, ghost post: Generation)
      requires Valid()
      modifies this`table, this`next, this`tableSector, this`generation, this`sequence, this`active, this`recoveryRequired,
               this`held, this`lists, this`floor, this`roots, device, allocator.bits
      ensures Valid()
      ensures old(device.history) <= device.history
      ensures old(recoveryRequired) ==> result.Rejected? && recoveryRequired && device.history == old(device.history)
      ensures !old(recoveryRequired) ==>
                && old(Here()) in old(held) && SnapshotsHeld(snapshots, old(held))
                && recoveryRequired == result.RecoveryRequired?
                && Archives() <= old(Archives())
                && CrashTail(device.history, old(|device.history|), capacity, {old(Current()), post}, old(Archives()))
                && (result.Rejected? ==> Current() == post == old(Current()) && table == old(table) && next == old(next)
                                         && allocator.Bits() == old(allocator.Bits()))
                && (!result.Rejected? ==> old(Admissible(requests)) && PutOutcome(old(Current()), requests, post))
                && (result.Committed? ==> Current() == post && generation == old(generation) + 1)
                && (result.Committed? ==>
                      var staged := StageAll(old(table), requests);
                      var count := |MergeAll(old(table), EntriesOf(staged))|;
                      && |table| == count && AllFit(old(allocator.Bits()), Needs(staged, count))
                      && allocator.Bits() == FitAll(old(allocator.Bits()), Needs(staged, count)))
                && (result.RecoveryRequired? ==> Outcomes() <= {old(Current()), post})
                && (!result.RecoveryRequired? ==> SnapshotsHeld(snapshots, held)
                                                  && Archive() == ArchiveOf(snapshots, old(held)))
                && (old(Admissible(requests)) && !device.FaultedSince(old(|device.history|)) ==> result.Committed?)
    {
      hide Observe, Safe, CrashTail, ArchivesOf, HeldBelow, BatchWritten, Taken, PlacedIn, StagedOk, Runs, MarksHeaders, PutOutcome,
           WellFormed, OnDisk, AllStored, GenerationOf, MarksRoot, MarksSnapshots, ArchiveOf, FromBatch, SnapshotsHeld,
           MergeAll, Find, Sorted, PlacedAs, AllFit, FitAll, Needs, StageAll, EntriesOf, Stageable, Durable, ReadyWith;
      if recoveryRequired {
        return Rejected, EMPTY;
      }
      ReadyFacts();
      ReadyTable();
      post := Current();
      ghost var b, pre, here, was := allocator.Bits(), Current(), Here(), held;
      EmptyTail(device.history, capacity, {pre, post}, Archives());
      if |requests| == 0 || |requests| > BATCH_MAX || generation >= UINT64_MAX {
        return Rejected, post;
      }
      var ok, staged := Stage(table, requests, capacity, cacheCapacity);
      if !ok {
        return Rejected, post;
      }
      StagedNonEmpty(table, requests);
      var savedNext := next;
      var placed, root;
      ok, placed, root := Place(staged, |MergeAll(table, EntriesOf(staged))|);
      if !ok {
        return Rejected, post;
      }
      ReadyMoves(savedNext, next);
      var candidate := MergeAll(table, EntriesOf(placed));
      BatchReady(table, requests, placed, capacity, cacheCapacity);
      result, post := Install(placed, candidate, root, b);
      if result.Rejected? {
        ReadyFacts();
        StillBelow(was, held, savedNext);
        ReadyMoves(next, savedNext);
        next := savedNext;
      } else {
        PutDone(b, placed, root, here, pre, capacity, cacheCapacity, requests, post);
      }
    }

    ghost predicate Deletable(id: ObjectId)
      reads this, allocator.bits
    {
      && !IsZero(id)
      && generation < UINT64_MAX
      && Find(table, id).Some?
      && AllFit(allocator.Bits(), Needs([], |table| - 1))
    }

    /** Removes one object atomically; every other object keeps its version and bytes. */
    method Delete(id: ObjectId) returns (ok: bool, ghost post: Generation)
      requires Valid()
      modifies this`table, this`next, this`tableSector, this`generation, this`sequence, this`active, this`recoveryRequired,
               this`held, this`lists, this`floor, this`roots, device, allocator.bits
      ensures Valid()
      ensures old(device.history) <= device.history
      ensures old(recoveryRequired) ==> !ok && recoveryRequired && device.history == old(device.history)
      ensures !old(recoveryRequired) ==>
                && old(Here()) in old(held) && SnapshotsHeld(snapshots, old(held))
                && Archives() <= old(Archives())
                && CrashTail(device.history, old(|device.history|), capacity, {old(Current()), post}, old(Archives()))
                && (post == old(Current()) || (old(Deletable(id)) && DeleteOutcome(old(Current()), id, post)))
                && (ok ==> !recoveryRequired && old(Deletable(id)) && Current() == post && DeleteOutcome(old(Current()), id, post))
                && (!ok && !recoveryRequired ==> Current() == post == old(Current()) && table == old(table)
                                                 && allocator.Bits() == old(allocator.Bits()))
                && (recoveryRequired ==> device.FaultedSince(old(|device.history|)) && Outcomes() <= {old(Current()), post})
                && (!recoveryRequired ==> SnapshotsHeld(snapshots, held) && Archive() == ArchiveOf(snapshots, old(held)))
                && (old(Deletable(id)) && !device.FaultedSince(old(|device.history|)) ==> ok)
                && (ok ==> && generation == old(generation) + 1 && |old(table)| > 0 && |table| == |old(table)| - 1
                           && AllFit(old(allocator.Bits()), Needs([], |table|))
                           && allocator.Bits() == FitAll(old(allocator.Bits()), Needs([], |table|)))
    {
      hide Observe, Safe, CrashTail, ArchivesOf, HeldBelow, BatchWritten, Taken, PlacedIn, StagedOk, Runs, MarksHeaders, DeleteOutcome,
           WellFormed, OnDisk, AllStored, GenerationOf, MarksRoot, MarksSnapshots, ArchiveOf, FromBatch, SnapshotsHeld,
           Find, Sorted, PlacedAs, AllFit, Needs, Durable, ReadyWith, Removed;
      if recoveryRequired {
        return false, EMPTY;
      }
      ReadyFacts();
      ReadyTable();
      post := Current();
      ghost var b, pre, here := allocator.Bits(), Current(), Here();
      EmptyTail(device.history, capacity, {pre, post}, Archives());
      if IsZero(id) || generation >= UINT64_MAX || Find(table, id).None? {
        return false, post;
      }
      RemovedReady(table, id);
      var candidate := Removed(table, id);
      var savedNext := next;
      var placed, root;
      ok, placed, root := Place([], |candidate|);
      if !ok {
        return false, post;
      }
      PlacedNothing(placed);
      ReadyMoves(savedNext, next);
      var result;
      result, post := Install([], candidate, root, b);
      if !result.Rejected? {
        DeleteDone(b, root, here, pre, capacity, id, post);
      }
      ok := result.Committed?;
    }

    // ---- Format and mount ---------------------------------------------------------------------

    ghost predicate Wired()
      reads device
    {
      device.Valid() && allocator.bits.Length == |device.durable|
    }

    /** The configuration format and mount accept. */
    ghost predicate SetupOk()
      reads device
    {
      capacity != 0 && HEADER_SIZE <= cacheCapacity && FIRST_ALLOCATABLE <= |device.durable|
    }

    /** The empty store in memory, over a disk holding its two superblocks and no log. */
    ghost predicate Formatted()
      reads this, device, allocator.bits
    {
      && Wired() && |device.durable| >= FIRST_ALLOCATABLE
      && table == [] && tableSector == 0 && next == FIRST_ALLOCATABLE && generation == 0
      && sequence == 2 && active == SUPERBLOCK_A
      && snapshots == NO_SNAPSHOTS
      && MarksHeaders(allocator.Bits())
      && var img := device.View().cur;
         && device.View() == Settled(img)
         && img[SUPERBLOCK_B] == Super(Superblock(1, capacity, next, 0, 0, 0, snapshots))
         && img[SUPERBLOCK_A] == Super(Superblock(2, capacity, next, 0, 0, 0, snapshots))
         && img[WAL_SECTOR] == Blank
    }

    /** The empty store, in memory. */
    method Clear()
      requires Parts()
      modifies this`table, this`next, this`tableSector, this`generation, this`sequence, this`active, this`snapshots,
               allocator.bits
      ensures table == [] && tableSector == 0 && next == FIRST_ALLOCATABLE && generation == 0
      ensures sequence == 0 && active == SUPERBLOCK_A && snapshots == NO_SNAPSHOTS
      ensures MarksHeaders(allocator.Bits()) && Spare(allocator.Bits(), FIRST_ALLOCATABLE)
    {
      table, next, tableSector, generation := [], FIRST_ALLOCATABLE, 0, 0;
      sequence, active, snapshots := 0, SUPERBLOCK_A, NO_SNAPSHOTS;
      allocator.ClearAll();
      HeadersMarked(allocator.Bits());
      allocator.SetRange(0, FIRST_ALLOCATABLE);
    }

    /** The empty store starts serving. */
    method Begin()
      requires Formatted()
      modifies this`recoveryRequired, this`held, this`lists, this`floor, this`roots
      ensures !recoveryRequired && Valid() && Here() in held && Current() == EMPTY
      ensures SnapshotsHeld(snapshots, held) && Archive() == map[]
    {
      hide Observe, Safe, OnDisk, WellFormed;
      FormattedIsSafe(device.View().cur, capacity, snapshots);
      EmptyHolds(snapshots, allocator.Bits(), next);
      recoveryRequired := false;
      held, lists, floor, roots := map[EMPTY_ROOT := EMPTY], {snapshots}, sequence, {EMPTY_ROOT};
    }

    /** Superblock 1 in slot B, superblock 2 in slot A, no log. */
    method WriteHeaders() returns (ok: bool)
      requires Parts() && active == SUPERBLOCK_A && sequence == 0
      modifies this`sequence, this`active, device
      ensures Parts() && old(device.history) <= device.history
      ensures !ok ==> device.FaultedSince(old(|device.history|))
      ensures ok ==>
                && sequence == 2 && active == SUPERBLOCK_A
                && var img := device.View().cur;
                   && device.View() == Settled(img)
                   && img[SUPERBLOCK_B] == Super(Superblock(1, capacity, next, tableSector, |table|, generation, snapshots))
                   && img[SUPERBLOCK_A] == Super(Superblock(2, capacity, next, tableSector, |table|, generation, snapshots))
                   && img[WAL_SECTOR] == Blank
    {
      hide Observe, Safe, SuperOk, SafeTail;
      ok := WriteSuperblock(false);
      if !ok {
        return;
      }
      ok := WriteSuperblock(false);
      if !ok {
        return;
      }
      ok := ClearLog(false);
    }

    /** Writes an empty store; fails only on a fault or a configuration that cannot work. */
    method Format() returns (ok: bool)
      requires Wired()
      modifies this, device, allocator.bits
      ensures Wired() && old(device.history) <= device.history
      ensures recoveryRequired == !ok
      ensures ok ==> SetupOk() && Valid() && table == [] && Here() in held && Current() == EMPTY
      ensures ok ==> SnapshotsHeld(snapshots, held) && Archive() == map[]
      ensures ok ==> generation == 0 && snapshots == NO_SNAPSHOTS && Spare(allocator.Bits(), FIRST_ALLOCATABLE)
      ensures SetupOk() && !device.FaultedSince(old(|device.history|)) ==> ok
    {
      hide Observe, Safe, OnDisk, WellFormed, Durable, ReadyWith, GuardedBy, SnapshotsHeld, ArchiveOf, SuperOk,
           MarksHeaders, Marked, Settled, Spare;
      recoveryRequired := true;
      if capacity == 0 || cacheCapacity < HEADER_SIZE || |device.durable| < FIRST_ALLOCATABLE {
        return false;
      }
      Clear();
      ok := WriteHeaders();
      if ok {
        Begin();
      }
    }

    /** Memory holds what recovery found on a safe disk. */
    ghost predicate Recovering()
      reads this, device
    {
      && Parts()
      && var p := device.View();
         && Safe(p, capacity, held, lists, floor, roots)
         && Here() in roots && Here() in held && table == held[Here()].entries
         && snapshots in lists && HeldBelow(held, next) && FIRST_ALLOCATABLE <= next <= |device.durable|
         && active <= SUPERBLOCK_B && p.cur[active].Super? && p.cur[active].sb.sequence == sequence >= floor
         && EffectiveRoot(p.cur[active].sb, p.cur[WAL_SECTOR]) == Here()
    }

    lemma RecoveringFacts()
      requires Recovering()
      ensures Parts() && active <= SUPERBLOCK_B && floor <= sequence && sequence % 2 == active
      ensures Safe(device.View(), capacity, held, lists, floor, roots)
      ensures Here() in roots && Here() in held && snapshots in lists && SnapshotsHeld(snapshots, held) && HeldBelow(held, next)
      ensures table == held[Here()].entries && FIRST_ALLOCATABLE <= next <= |device.durable|
      ensures SuperOk(SuperNow(), |device.durable|, capacity, held, lists)
      ensures forall w :: w in device.View().maybe[WAL_SECTOR] ==> EffectiveRoot(SuperNow(), w) in roots
    {
      hide Observe, OnDisk, WellFormed, SnapshotsHeld, HeldBelow, AllHeld;
      var p := device.View();
      SlotParity(p, capacity, held, lists, floor, roots, active);
      SafeFacts(p, capacity, held, lists, floor, roots);
      forall w | w in p.maybe[WAL_SECTOR]
        ensures EffectiveRoot(SuperNow(), w) in roots
      {
        assert EffectiveRoot(p.cur[active].sb, w) in roots;
      }
    }

    lemma RecoveringWal()
      requires Recovering()
      ensures var w := device.View().cur[WAL_SECTOR]; w.Blank? || (w.Wal? && w.generation != 0)
    {
      hide Observe, OnDisk, WellFormed, SnapshotsHeld, HeldBelow, AllHeld, SuperOk;
      assert device.View().cur[WAL_SECTOR] in device.View().maybe[WAL_SECTOR];
    }

    /** Replay, first half: the superblock that names the logged root. */
    method ReplaySuper(ghost safe: bool) returns (ok: bool)
      requires Parts() && active <= SUPERBLOCK_B
      requires safe ==> Recovering() && device.View().cur[WAL_SECTOR].Wal?
      modifies this`sequence, this`active, this`held, this`lists, this`floor, this`roots, device
      ensures Parts() && active <= SUPERBLOCK_B && old(device.history) <= device.history
      ensures !ok ==> device.FaultedSince(old(|device.history|))
      ensures forall s :: WAL_SECTOR <= s < |device.durable| ==> device.View().cur[s] == old(device.View()).cur[s]
      ensures safe ==> Outcomes() <= old(Outcomes()) && Archives() <= old(Archives())
      ensures safe ==> CrashTail(device.history, old(|device.history|), capacity, old(Outcomes()), old(Archives()))
      ensures safe && !ok ==> Durable()
      ensures safe && ok ==>
                && Safe(device.View(), capacity, held, lists, floor, {Here()}) && roots == {Here()} && lists == {snapshots}
                && Here() in held && Here() in old(held) && held == Needed(old(held), Here(), snapshots)
                && Current() == old(held)[Here()]
                && device.View() == Settled(device.View().cur)
                && device.View().cur[active].Super? && device.View().cur[active].sb.sequence == sequence == floor
                && device.View().cur[1 - active].Super? && device.View().cur[1 - active].sb.sequence < floor
                && SuperRoot(device.View().cur[active].sb) == Here()
    {
      hide Observe, Safe, CrashTail, ArchivesOf, SafeTail, OnDisk, WellFormed, SnapshotsHeld, Needed, HeldBelow, SuperOk;
      ghost var n := |device.history|;
      if safe {
        RecoveringFacts();
        RecoveringWal();
        NeededArchives(held, Here(), snapshots, lists);
      }
      ok := WriteSuperblock(safe);
      if safe {
        SafeTailCrashes(device.history, n, capacity, held, lists, floor, roots, Outcomes(), Archives());
        if ok {
          ForgetOlder();
        }
      }
    }

    /** Completes a logged commit: superblock, then an empty log. */
    method Replay(ghost safe: bool) returns (ok: bool)
      requires Parts() && active <= SUPERBLOCK_B
      requires safe ==> Recovering() && device.View().cur[WAL_SECTOR].Wal?
      modifies this`sequence, this`active, this`held, this`lists, this`floor, this`roots, device
      ensures Parts() && old(device.history) <= device.history
      ensures !ok ==> device.FaultedSince(old(|device.history|))
      ensures forall s :: FIRST_ALLOCATABLE <= s < |device.durable| ==> device.View().cur[s] == old(device.View()).cur[s]
      ensures safe ==> Outcomes() <= old(Outcomes()) && Archives() <= old(Archives())
      ensures safe ==> CrashTail(device.history, old(|device.history|), capacity, old(Outcomes()), old(Archives()))
      ensures safe ==> Durable()
      ensures safe && ok ==>
                && Ready() && lists == {snapshots}
                && Here() in old(held) && held == Needed(old(held), Here(), snapshots) && Current() == old(held)[Here()]
    {
      hide Observe, Safe, CrashTail, ArchivesOf, OnDisk, WellFormed, SnapshotsHeld, Needed, HeldBelow, Recovering;
      ghost var n, gens, archives := |device.history|, Outcomes(), Archives();
      if safe {
        RecoveringFacts();
        NeededBelow(held, Here(), snapshots, next);
        NeededArchives(held, Here(), snapshots, lists);
      }
      ok := ReplaySuper(safe);
      if ok {
        ghost var h := device.history;
        ok := ClearLog(safe);
        if safe {
          SafeTailCrashes(device.history, |h|, capacity, held, lists, floor, roots, gens, archives);
          JoinTails(h, device.history, n, capacity, gens, archives);
        }
      }
    }

    /** Takes over the newest valid superblock. */
    method LoadSuperblock() returns (ok: bool, root: Root)
      requires Parts()
      modifies this`next, this`tableSector, this`generation, this`sequence, this`active, this`snapshots
      ensures var img := device.View().cur;
              var chosen := ChosenSuper(img[SUPERBLOCK_A], img[SUPERBLOCK_B], |img|, capacity);
              && ok == chosen.Some?
              && (ok ==> && active == chosen.value && root == SuperRoot(img[active].sb)
                         && sequence == img[active].sb.sequence && next == img[active].sb.next
                         && generation == img[active].sb.generation && snapshots == img[active].sb.snapshots)
    {
      hide Observe;
      root := EMPTY_ROOT;
      var first := device.ReadSector(SUPERBLOCK_A);
      var second := device.ReadSector(SUPERBLOCK_B);
      var sb;
      if IsValidSuper(first, |device.durable|, capacity)
         && (!IsValidSuper(second, |device.durable|, capacity) || first.sb.sequence >= second.sb.sequence) {
        sb, active := first.sb, SUPERBLOCK_A;
      } else if IsValidSuper(second, |device.durable|, capacity) {
        sb, active := second.sb, SUPERBLOCK_B;
      } else {
        return false, root;
      }
      sequence, next, tableSector, generation := sb.sequence, sb.next, sb.tableSector, sb.generation;
      snapshots := sb.snapshots;
      return true, Root(sb.tableSector, sb.tableCount);
    }

    method LoadTable(root: Root) returns (ok: bool)
      requires Parts()
      modifies this`table, this`tableSector
      ensures ok == ReadTable(device.View().cur, root, capacity).Some?
      ensures ok ==> Here() == root && table == ReadTable(device.View().cur, root, capacity).value
    {
      hide Observe;
      var entries := ReadTableGeneration(root);
      if entries.None? {
        return false;
      }
      table, tableSector := entries.value, root.sector;
      return true;
    }

    lemma DurableRecovers()
      requires Durable()
      ensures Recover(device.View().cur, capacity).Some?
      ensures var m := Recover(device.View().cur, capacity).value;
              && m.root in roots && m.root in held && m.table == held[m.root].entries && m.sb.snapshots in lists
              && HeldBelow(held, m.sb.next) && FIRST_ALLOCATABLE <= m.sb.next <= |device.durable|
              && m.sb.sequence >= floor && m.active <= SUPERBLOCK_B
              && device.View().cur[m.active] == Super(m.sb)
    {
      hide Observe, OnDisk, WellFormed, SnapshotsHeld, ReadTable, SnapshotsReadable, AllHeld, SupersOk, LeadsTo, HeldBelow;
      var p := device.View();
      assert IsImage(p, p.cur);
      CrashRecovers(p, capacity, held, lists, floor, roots, p.cur);
      ChoiceIsOk(p, capacity, held, lists, floor, roots, p.cur);
    }

    /** Memory was loaded from what the image says. */
    ghost predicate Loaded(m: Mounted)
      reads this
    {
      && active == m.active && sequence == m.sb.sequence && next == m.sb.next && snapshots == m.sb.snapshots
      && Here() == m.root && table == m.table && generation == m.generation
    }

    lemma LoadedIsRecovering(m: Mounted)
      requires Durable() && Loaded(m) && Resolve(device.View().cur, capacity) == Some(m)
      ensures Recovering()
      ensures SnapshotsHeld(snapshots, held)
      ensures device.View().cur[WAL_SECTOR].Blank? ==> Ready()
    {
      hide Observe, Safe, OnDisk, WellFormed, SnapshotsHeld, ReadTable, SnapshotsReadable, HeldBelow, IsValidSuper;
      DurableRecovers();
      SafeFacts(device.View(), capacity, held, lists, floor, roots);
    }

    /** Loads superblock and table, completing a logged commit if there is one. */
    method Restore() returns (ok: bool)
      requires Parts()
      modifies this`table, this`next, this`tableSector, this`generation, this`sequence, this`active, this`snapshots,
               this`held, this`lists, this`floor, this`roots, device
      ensures Parts() && old(device.history) <= device.history
      ensures forall s :: FIRST_ALLOCATABLE <= s < |device.durable| ==> device.View().cur[s] == old(device.View()).cur[s]
      ensures var m := Resolve(old(device.View()).cur, capacity);
              && (ok ==> m.Some? && Here() == m.value.root && table == m.value.table && snapshots == m.value.sb.snapshots
                         && generation == m.value.generation && next == m.value.sb.next)
              && (m.Some? && !ok ==> device.FaultedSince(old(|device.history|)))
      ensures old(Durable()) ==> Outcomes() <= old(Outcomes()) && Archives() <= old(Archives())
      ensures old(Durable()) ==> Durable() && CrashTail(device.history, old(|device.history|), capacity, old(Outcomes()), old(Archives()))
      ensures old(Durable()) && ok ==>
                && Ready() && snapshots in old(lists) && Here() in old(roots) && Here() in old(held)
                && SnapshotsHeld(snapshots, old(held)) && Current() == old(held)[Here()]
                && (held == old(held) || held == Needed(old(held), Here(), snapshots))
    {
      hide Observe, Safe, CrashTail, ArchivesOf, OnDisk, WellFormed, SnapshotsHeld, Needed, HeldBelow, Recovering, IsValidSuper, IsValidWal,
           ReadTable, ReadyWith, Durable;
      ghost var safe, img := Durable(), device.View().cur;
      ghost var m := Resolve(img, capacity);
      EmptyTail(device.history, capacity, Outcomes(), Archives());
      var root;
      ok, root := LoadSuperblock();
      if !ok {
        return;
      }
      var wal := device.ReadSector(WAL_SECTOR);
      if wal.Blank? {
        ok := LoadTable(root);
        if safe && ok {
          LoadedIsRecovering(m.value);
          RecoveringFacts();
        }
      } else if !IsValidWal(wal, next, capacity) {
        ok := false;
      } else {
        WalIsWal(wal, next, capacity);
        ok := LoadTable(Root(wal.tableSector, wal.tableCount));
        if !ok {
          return;
        }
        generation := wal.generation;
        if safe {
          LoadedIsRecovering(m.value);
          RecoveringFacts();
        }
        ok := Replay(safe);
      }
    }

    lemma DurableReadable()
      requires Durable() && Ready()
      ensures SnapshotsReadable(device.View().cur, snapshots, capacity)
    {
      hide Observe, Safe, WellFormed, SnapshotsHeld, SnapshotsReadable;
      CollectFacts(device.View(), capacity, held, lists, floor, roots, Here(), snapshots);
    }

    /** A rebuilt bitmap guards what is held. */
    lemma RebuiltIsGuarded()
      requires Durable() && Ready()
      requires forall s :: 0 <= s < allocator.bits.Length ==>
                 (allocator.Bits()[s] <==> s < FIRST_ALLOCATABLE || Reachable(device.View().cur, capacity, Here(), s)
                                           || ReachableFrom(device.View().cur, capacity, snapshots, s))
      ensures Guarded()
    {
      hide Observe, Safe, WellFormed, SnapshotsHeld, Reachable, ReachableFrom, Covers;
      CollectFacts(device.View(), capacity, held, lists, floor, roots, Here(), snapshots);
    }

    /**
     * Mounts whatever is on the device: succeeds exactly when the image makes sense and no
     * fault interferes. From a durable state, the store comes back with one of the
     * generations a crash may leave, complete, and with its snapshots.
     */
    method Mount() returns (ok: bool)
      requires Wired()
      modifies this, device, allocator.bits
      ensures Wired() && old(device.history) <= device.history
      ensures recoveryRequired == !ok
      ensures ok ==> SetupOk()
      ensures SetupOk() ==>
                var m := Recover(old(device.View()).cur, capacity);
                && (ok ==> m.Some? && Here() == m.value.root && table == m.value.table && snapshots == m.value.sb.snapshots
                           && generation == m.value.generation && next == m.value.sb.next)
                && (m.Some? && !device.FaultedSince(old(|device.history|)) ==> ok)
      ensures SetupOk() && old(Durable()) ==>
                && Valid() && Outcomes() <= old(Outcomes()) && Archives() <= old(Archives())
                && CrashTail(device.history, old(|device.history|), capacity, old(Outcomes()), old(Archives()))
                && (ok ==> && snapshots in old(lists) && Here() in old(roots) && Here() in old(held) && Here() in held
                           && Current() == old(held)[Here()]
                           && SnapshotsHeld(snapshots, old(held)) && SnapshotsHeld(snapshots, held)
                           && Archive() == ArchiveOf(snapshots, old(held)))
    {
      hide Observe, Safe, CrashTail, ArchivesOf, OnDisk, WellFormed, SnapshotsHeld, ArchiveOf, HeldBelow, Durable, ReadyWith, GuardedBy,
           ReadTable, SnapshotsReadable, Resolve, Reachable, ReachableFrom, Needed, MarksSnapshots;
      recoveryRequired := true;
      if capacity == 0 || cacheCapacity < HEADER_SIZE || |device.durable| < FIRST_ALLOCATABLE {
        return false;
      }
      ghost var safe, img, was := Durable(), device.View().cur, held;
      ok := Restore();
      if !ok {
        return;
      }
      ResolvedTable(img, capacity);
      SameTable(img, device.View().cur, Here(), capacity);
      SameSnapshots(img, device.View().cur, snapshots, capacity);
      ok := RebuildBitmap();
      if safe {
        ReadyFacts();
        NeededArchive(was, Here(), snapshots);
        DurableReadable();
        RebuiltIsGuarded();
      }
      recoveryRequired := !ok;
    }

    /** Discards the oldest snapshots until at most `keep` are left. */
    method DiscardDown(keep: nat) returns (ok: bool)
      requires Valid() && !recoveryRequired && keep <= SNAPSHOT_LIMIT
      modifies this`snapshots, this`generation, this`sequence, this`active, this`held, this`lists, this`floor, this`roots, device
      ensures Valid() && old(device.history) <= device.history
      ensures Here() == old(Here()) && Here() in held && Current() == old(Current())
      ensures SnapshotsHeld(snapshots, held) && SnapshotsHeld(old(snapshots), old(held))
      ensures Newest(Archive(), ArchiveOf(old(snapshots), old(held)))
      ensures ok ==> |Archive()| <= keep && (Archive() == ArchiveOf(old(snapshots), old(held)) || |Archive()| == keep)
      ensures !device.FaultedSince(old(|device.history|)) ==> ok
      ensures exists archives: set<Archive> ::
                && (forall a :: a in archives ==> a in old(Archives()) || Newest(a, ArchiveOf(old(snapshots), old(held))))
                && Archives() <= archives
                && CrashTail(device.history, old(|device.history|), capacity, {Current()}, archives)
    {
      hide Observe, Safe, CrashTail, ArchivesOf, OnDisk, WellFormed, MarksRoot, MarksSnapshots, ArchiveOf, SnapshotsHeld, HeldBelow,
           Durable, ReadyWith, MarksHeaders, Newest, IdsOf, Covers, InArchive;
      ReadyFacts();
      ghost var before, archives, gens := Archive(), Archives(), {Current()};
      ghost var n := |device.history|;
      EmptyTail(device.history, capacity, gens, archives);
      NewestSelf(before);
      var done := false;
      while !done
        invariant Valid() && !recoveryRequired && old(device.history) <= device.history
        invariant Here() == old(Here()) && Here() in held && Current() == old(Current()) && table == old(table)
        invariant gens == {Current()} && SnapshotsHeld(snapshots, held)
        invariant Newest(Archive(), before) && (Archive() == before || |Archive()| >= keep)
        invariant done ==> |Archive()| <= keep
        invariant forall a :: a in archives ==> a in old(Archives()) || Newest(a, before)
        invariant Archives() <= archives && CrashTail(device.history, n, capacity, gens, archives)
        decreases !done, |Archive()|
      {
        ListedFacts(snapshots, held);
        ArchiveIds(snapshots, held);
        var used, oldest := ScanSnapshots(snapshots);
        if used <= keep || oldest == SNAPSHOT_LIMIT {
          done := true;
        } else {
          var id := snapshots[oldest].id;
          ghost var h, was, more := device.history, Archive(), archives + {Archive() - {id}};
          ghost var during := Archives() + {was - {id}};
          DropOldest(was, before, id);
          ok := SnapshotDiscard(id);
          LongerTail(h, device.history, n, capacity, gens, archives, during, more);
          archives := more;
          if !ok {
            return;
          }
        }
      }
      ok := true;
    }

    /** Discards the oldest snapshots until `keep` are left, then reclaims their sectors. */
    method SnapshotPrune(keep: nat) returns (ok: bool)
      requires Valid()
      modifies this`snapshots, this`generation, this`sequence, this`active, this`held, this`lists, this`floor, this`roots,
               device, allocator.bits
      ensures Valid() && old(device.history) <= device.history
      ensures recoveryRequired || keep > SNAPSHOT_LIMIT ==> !ok && device.history == old(device.history)
      ensures !recoveryRequired ==>
                && Here() == old(Here()) && Here() in held && Current() == old(Current())
                && SnapshotsHeld(snapshots, held) && SnapshotsHeld(old(snapshots), old(held))
                && Newest(Archive(), ArchiveOf(old(snapshots), old(held)))
                && (ok ==> |Archive()| <= keep && (Archive() == ArchiveOf(old(snapshots), old(held)) || |Archive()| == keep))
                && (ok ==> forall s :: 0 <= s < allocator.bits.Length ==>
                      (allocator.Bits()[s] <==> s < FIRST_ALLOCATABLE || Covers(Here(), table, s) || InArchive(snapshots, held, s)))
                && (keep <= SNAPSHOT_LIMIT && !device.FaultedSince(old(|device.history|)) ==> ok)
                && (exists archives: set<Archive> ::
                      && (forall a :: a in archives ==> a in old(Archives()) || Newest(a, ArchiveOf(old(snapshots), old(held))))
                      && Archives() <= archives
                      && CrashTail(device.history, old(|device.history|), capacity, {Current()}, archives))
    {
      hide Observe, Safe, CrashTail, ArchivesOf, OnDisk, WellFormed, MarksRoot, MarksSnapshots, ArchiveOf, SnapshotsHeld, HeldBelow,
           Durable, ReadyWith, MarksHeaders, Newest, Covers, InArchive;
      if recoveryRequired {
        return false;
      }
      ReadyFacts();
      if keep > SNAPSHOT_LIMIT {
        EmptyTail(device.history, capacity, {Current()}, Archives());
        NewestSelf(Archive());
        return false;
      }
      ok := DiscardDown(keep);
      if ok {
        ok := Collect();
      }
    }
  }

  method SlotOf(snapshots: seq<Snapshot>, id: nat) returns (slot: nat)
    requires |snapshots| == SNAPSHOT_LIMIT
    ensures slot <= SNAPSHOT_LIMIT
    ensures slot < SNAPSHOT_LIMIT ==> snapshots[slot].id == id
    ensures slot == SNAPSHOT_LIMIT ==> forall i :: 0 <= i < SNAPSHOT_LIMIT ==> snapshots[i].id != id
  {
    slot := 0;
    while slot < SNAPSHOT_LIMIT
      invariant 0 <= slot <= SNAPSHOT_LIMIT
      invariant forall i :: 0 <= i < slot ==> snapshots[i].id != id
    {
      if snapshots[slot].id == id {
        return;
      }
      slot := slot + 1;
    }
  }

  // One pass looks for the id and remembers the first empty slot.
  method FreeSlot(snapshots: seq<Snapshot>, id: nat) returns (slot: nat)
    requires |snapshots| == SNAPSHOT_LIMIT && id != 0
    ensures slot <= SNAPSHOT_LIMIT
    ensures slot < SNAPSHOT_LIMIT ==>
              && snapshots[slot].id == 0
              && (forall i :: 0 <= i < slot ==> snapshots[i].id != 0)
              && (forall i :: 0 <= i < SNAPSHOT_LIMIT ==> snapshots[i].id != id)
    ensures slot == SNAPSHOT_LIMIT ==>
              || (forall i :: 0 <= i < SNAPSHOT_LIMIT ==> snapshots[i].id != 0)
              || (exists i :: 0 <= i < SNAPSHOT_LIMIT && snapshots[i].id == id)
  {
    slot := SNAPSHOT_LIMIT;
    var index := 0;
    while index < SNAPSHOT_LIMIT
      invariant 0 <= index <= SNAPSHOT_LIMIT
      invariant slot == SNAPSHOT_LIMIT || slot < index
      invariant slot < SNAPSHOT_LIMIT ==> snapshots[slot].id == 0
      invariant forall i :: 0 <= i < index && i < slot ==> snapshots[i].id != 0
      invariant forall i :: 0 <= i < index ==> snapshots[i].id != id
    {
      if snapshots[index].id == id {
        return SNAPSHOT_LIMIT;
      }
      if slot == SNAPSHOT_LIMIT && snapshots[index].id == 0 {
        slot := index;
      }
      index := index + 1;
    }
  }
}
