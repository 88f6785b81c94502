/**
 * What mounting makes of a disk image, and the invariant that keeps every image a crash
 * can leave mountable.
 */
module Recovery {
  import opened ObjectIds
  import opened ObjectTables
  import opened Layout
  import opened BlockDevice

  // ---- Mounting, as a function of the image -------------------------------------------

  predicate IsValidSuper(r: Record, sectors: nat, capacity: nat) {
    && r.Super?
    && r.sb.capacity == capacity
    && FIRST_ALLOCATABLE <= r.sb.next <= sectors
    && |r.sb.snapshots| == SNAPSHOT_LIMIT
    && !(r.sb.tableSector == 0 && r.sb.tableCount != 0)
    && r.sb.tableCount <= capacity
    && (r.sb.tableSector != 0 ==>
          && FIRST_ALLOCATABLE <= r.sb.tableSector <= r.sb.next
          && r.sb.tableCount <= r.sb.next - r.sb.tableSector)
  }

  /** The record validator together with the bounds recovery checks against `next`. */
  predicate IsValidWal(r: Record, next: nat, capacity: nat) {
    && r.Wal?
    && (r.tableCount == 0 <==> r.tableSector == 0)
    && r.generation != 0
    && r.tableCount <= capacity
    && (r.tableCount != 0 ==>
          && FIRST_ALLOCATABLE <= r.tableSector <= next
          && r.tableCount <= next - r.tableSector)
  }

  /** The superblock mount picks: the valid one with the higher sequence, A on a tie. */
  function ChosenSuper(a: Record, b: Record, sectors: nat, capacity: nat): (chosen: Option<nat>)
    ensures chosen.Some? ==> chosen.value <= 1
  {
    if IsValidSuper(a, sectors, capacity)
       && (!IsValidSuper(b, sectors, capacity) || a.sb.sequence >= b.sb.sequence) then Some(SUPERBLOCK_A)
    else if IsValidSuper(b, sectors, capacity) then Some(SUPERBLOCK_B)
    else None
  }

  ghost predicate TableReadable(img: seq<Record>, root: Root, capacity: nat, entries: seq<Entry>) {
    && |entries| == root.count <= capacity
    && (root.count != 0 ==> FIRST_ALLOCATABLE <= root.sector && root.sector + root.count <= |img|)
    && (forall i :: 0 <= i < |entries| ==> img[root.sector + i] == TableEntry(entries[i]))
    && (forall i :: 0 <= i < |entries| ==> IsValidEntry(entries[i]))
    && Sorted(entries)
  }

  /** The table a generation read returns; none if any sector is not a valid, ordered entry. */
  ghost function ReadTable(img: seq<Record>, root: Root, capacity: nat): Option<seq<Entry>> {
    if exists entries :: TableReadable(img, root, capacity, entries) then
      var entries :| TableReadable(img, root, capacity, entries);
      Some(entries)
    else None
  }

  lemma TableReadableIsUnique(img: seq<Record>, root: Root, capacity: nat, s: seq<Entry>)
    requires TableReadable(img, root, capacity, s)
    ensures ReadTable(img, root, capacity) == Some(s)
  {
    var t := ReadTable(img, root, capacity).value;
    forall i | 0 <= i < |s|
      ensures s[i] == t[i]
    {
      assert img[root.sector + i] == TableEntry(t[i]);
    }
    assert s == t;
  }

  /** One sector that is not the next valid entry makes the whole generation unreadable. */
  lemma UnreadableAt(img: seq<Record>, root: Root, capacity: nat, i: nat)
    requires i < root.count && root.sector + root.count <= |img|
    requires var r := img[root.sector + i];
             || !r.TableEntry?
             || !IsValidEntry(r.entry)
             || (i != 0 && img[root.sector + i - 1].TableEntry? && !Less(img[root.sector + i - 1].entry.id, r.entry.id))
    ensures ReadTable(img, root, capacity) == None
  {
    forall entries: seq<Entry>
      ensures !TableReadable(img, root, capacity, entries)
    {
      assert |entries| == root.count && i > 0 && Sorted(entries) ==> Less(entries[i - 1].id, entries[i].id);
    }
  }

  function SnapshotRoot(s: Snapshot): Root {
    Root(s.sector, s.count)
  }

  function SuperRoot(sb: Superblock): Root {
    Root(sb.tableSector, sb.tableCount)
  }

  /** The generation in force: the logged root if there is one, else the superblock's. */
  function EffectiveRoot(sb: Superblock, wal: Record): Root {
    if wal.Wal? then Root(wal.tableSector, wal.tableCount) else SuperRoot(sb)
  }

  ghost predicate SnapshotsReadable(img: seq<Record>, snapshots: seq<Snapshot>, capacity: nat) {
    forall i :: 0 <= i < |snapshots| && snapshots[i].id != 0 && snapshots[i].count != 0 ==>
      ReadTable(img, SnapshotRoot(snapshots[i]), capacity).Some?
  }

  datatype Mounted = Mounted(active: nat, sb: Superblock, root: Root, generation: nat,
                             replayed: bool, table: seq<Entry>)

  /** What an image says is in force, before the snapshots are looked at. */
  ghost function Resolve(img: seq<Record>, capacity: nat): Option<Mounted>
    requires |img| >= FIRST_ALLOCATABLE
  {
    var chosen := ChosenSuper(img[SUPERBLOCK_A], img[SUPERBLOCK_B], |img|, capacity);
    if chosen.None? then None
    else
      var sb := img[chosen.value].sb;
      var wal := img[WAL_SECTOR];
      if !wal.Blank? && !IsValidWal(wal, sb.next, capacity) then None
      else
        var root := EffectiveRoot(sb, wal);
        var table := ReadTable(img, root, capacity);
        if table.None? then None
        else Some(Mounted(chosen.value, sb, root, if wal.Blank? then sb.generation else wal.generation,
                          !wal.Blank?, table.value))
  }

  /** The outcome of mounting an image with working I/O, or `None` when mount refuses it. */
  ghost function Recover(img: seq<Record>, capacity: nat): Option<Mounted>
    requires |img| >= FIRST_ALLOCATABLE
  {
    var m := Resolve(img, capacity);
    if m.Some? && SnapshotsReadable(img, m.value.sb.snapshots, capacity) then m else None
  }

  /** Tables live past the headers, so rewriting headers leaves every table readable as before. */
  lemma SameTable(img: seq<Record>, after: seq<Record>, root: Root, capacity: nat)
    requires |after| == |img| && forall s :: FIRST_ALLOCATABLE <= s < |img| ==> after[s] == img[s]
    ensures ReadTable(after, root, capacity) == ReadTable(img, root, capacity)
  {
    var a, b := ReadTable(img, root, capacity), ReadTable(after, root, capacity);
    if a.Some? {
      TableReadableIsUnique(after, root, capacity, a.value);
    } else if b.Some? {
      assert TableReadable(img, root, capacity, b.value);
    }
  }

  lemma SameSnapshots(img: seq<Record>, after: seq<Record>, snapshots: seq<Snapshot>, capacity: nat)
    requires |after| == |img| && forall s :: FIRST_ALLOCATABLE <= s < |img| ==> after[s] == img[s]
    ensures SnapshotsReadable(after, snapshots, capacity) == SnapshotsReadable(img, snapshots, capacity)
  {
    hide ReadTable;
    forall i | 0 <= i < |snapshots|
      ensures ReadTable(after, SnapshotRoot(snapshots[i]), capacity) == ReadTable(img, SnapshotRoot(snapshots[i]), capacity)
    {
      SameTable(img, after, SnapshotRoot(snapshots[i]), capacity);
    }
  }

  // ---- The crash invariant --------------------------------------------------------------

  type Held = map<Root, Generation>

  /** Generation `g` is on disk and no buffered write can disturb it. */
  ghost predicate Holds(p: Platter, root: Root, g: Generation)
    requires |p.cur| == |p.maybe|
  {
    && OnDisk(p.cur, root, g)
    && forall s :: 0 <= s < |p.cur| && Covers(root, g.entries, s) ==> p.maybe[s] == {p.cur[s]}
  }

  ghost predicate UniqueIds(snapshots: seq<Snapshot>) {
    forall i, j :: 0 <= i < j < |snapshots| && snapshots[i].id != 0 ==> snapshots[i].id != snapshots[j].id
  }

  /** A snapshot list whose every named generation is held. */
  ghost predicate SnapshotsHeld(snapshots: seq<Snapshot>, held: Held) {
    && |snapshots| == SNAPSHOT_LIMIT
    && UniqueIds(snapshots)
    && forall i :: 0 <= i < |snapshots| && snapshots[i].id != 0 ==>
         snapshots[i].count != 0 && SnapshotRoot(snapshots[i]) in held
  }

  ghost predicate HeldBelow(held: Held, next: nat) {
    forall root :: root in held ==> root.sector + root.count <= next
  }

  /** A superblock recovery may start from without losing anything held. */
  ghost predicate SuperOk(sb: Superblock, sectors: nat, capacity: nat, held: Held, lists: set<seq<Snapshot>>) {
    && sb.capacity == capacity
    && FIRST_ALLOCATABLE <= sb.next <= sectors
    && SuperRoot(sb) in held
    && HeldBelow(held, sb.next)
    && sb.snapshots in lists
  }

  /** Slot A only ever holds even sequences and slot B odd ones, so there is never a tie. */
  ghost predicate SupersOk(slot: nat, values: set<Record>, sectors: nat, capacity: nat, held: Held,
                           lists: set<seq<Snapshot>>, floor: nat) {
    forall r :: r in values ==>
      && r.Super?
      && r.sb.sequence % 2 == slot
      && (r.sb.sequence >= floor ==> SuperOk(r.sb, sectors, capacity, held, lists))
  }

  ghost predicate AtLeast(values: set<Record>, floor: nat) {
    forall r :: r in values ==> r.Super? && r.sb.sequence >= floor
  }

  ghost predicate WalsOk(values: set<Record>, held: Held) {
    forall w :: w in values ==>
      w.Blank? || (w.Wal? && w.generation != 0 && Root(w.tableSector, w.tableCount) in held)
  }

  ghost predicate LeadsTo(supers: set<Record>, wals: set<Record>, floor: nat, roots: set<Root>) {
    forall r, w :: r in supers && w in wals && r.Super? && r.sb.sequence >= floor ==>
      EffectiveRoot(r.sb, w) in roots
  }

  ghost predicate Shaped(p: Platter) {
    && |p.maybe| == |p.cur| >= FIRST_ALLOCATABLE
    && forall s :: 0 <= s < |p.cur| ==> p.cur[s] in p.maybe[s]
  }

  ghost predicate AllHeld(p: Platter, capacity: nat, held: Held)
    requires |p.cur| == |p.maybe|
  {
    forall root :: root in held ==> Holds(p, root, held[root]) && WellFormed(held[root], capacity)
  }

  /**
   * Whatever subset of the buffer a crash keeps, mount finds a superblock no older than
   * `floor`, the generation it leads to is one of `roots`, and its snapshot list is one of
   * `lists`. Everything in `held` is on disk beyond reach of the buffer.
   */
  ghost predicate Safe(p: Platter, capacity: nat, held: Held, lists: set<seq<Snapshot>>, floor: nat,
                       roots: set<Root>) {
    && Shaped(p)
    && AllHeld(p, capacity, held)
    && (AtLeast(p.maybe[SUPERBLOCK_A], floor) || AtLeast(p.maybe[SUPERBLOCK_B], floor))
    && SupersOk(SUPERBLOCK_A, p.maybe[SUPERBLOCK_A], |p.cur|, capacity, held, lists, floor)
    && SupersOk(SUPERBLOCK_B, p.maybe[SUPERBLOCK_B], |p.cur|, capacity, held, lists, floor)
    && WalsOk(p.maybe[WAL_SECTOR], held)
    && LeadsTo(p.maybe[SUPERBLOCK_A], p.maybe[WAL_SECTOR], floor, roots)
    && LeadsTo(p.maybe[SUPERBLOCK_B], p.maybe[WAL_SECTOR], floor, roots)
    && roots <= held.Keys
    && (forall l :: l in lists ==> SnapshotsHeld(l, held))
  }

  /** Held generations survive into every image. */
  lemma HeldInImage(p: Platter, root: Root, g: Generation, img: seq<Record>)
    requires Shaped(p) && Holds(p, root, g) && IsImage(p, img)
    ensures OnDisk(img, root, g)
  {
    forall i | 0 <= i < |g.entries|
      ensures img[root.sector + i] == TableEntry(g.entries[i])
    {
      assert InTable(root, root.sector + i);
      assert Covers(root, g.entries, root.sector + i);
    }
    forall i | 0 <= i < |g.entries|
      ensures ExtentOnDisk(img, g.entries[i], g.blocks[i])
    {
      var e := g.entries[i];
      assert ExtentOnDisk(p.cur, e, g.blocks[i]);
      forall s | e.first <= s < e.first + e.count
        ensures img[s] == p.cur[s]
      {
        assert InExtent(e, s);
        assert Covers(root, g.entries, s);
      }
      assert img[e.first..e.first + e.count] == p.cur[e.first..e.first + e.count];
    }
  }

  lemma OnDiskIsReadable(img: seq<Record>, root: Root, g: Generation, capacity: nat)
    requires OnDisk(img, root, g) && WellFormed(g, capacity)
    ensures ReadTable(img, root, capacity) == Some(g.entries)
  {
    TableReadableIsUnique(img, root, capacity, g.entries);
  }

  lemma HeldReadable(p: Platter, capacity: nat, held: Held, img: seq<Record>, root: Root)
    requires Shaped(p) && AllHeld(p, capacity, held) && IsImage(p, img) && root in held
    ensures OnDisk(img, root, held[root])
    ensures ReadTable(img, root, capacity) == Some(held[root].entries)
    ensures root.count <= capacity && (root.count == 0 <==> root.sector == 0)
    ensures root.count != 0 ==> FIRST_ALLOCATABLE <= root.sector
  {
    HeldInImage(p, root, held[root], img);
    OnDiskIsReadable(img, root, held[root], capacity);
  }

  /** A superblock at or above the floor passes the mount checks and leads where it should. */
  lemma SlotIsOk(p: Platter, capacity: nat, held: Held, lists: set<seq<Snapshot>>, floor: nat,
                 roots: set<Root>, img: seq<Record>, slot: nat)
    requires Safe(p, capacity, held, lists, floor, roots) && IsImage(p, img) && slot <= SUPERBLOCK_B
    ensures img[slot].Super? && img[slot].sb.sequence % 2 == slot
    ensures img[slot].sb.sequence >= floor ==>
              && IsValidSuper(img[slot], |img|, capacity)
              && SuperOk(img[slot].sb, |img|, capacity, held, lists)
              && EffectiveRoot(img[slot].sb, img[WAL_SECTOR]) in roots
  {
    hide OnDisk, WellFormed;
    assert img[slot] in p.maybe[slot] && img[WAL_SECTOR] in p.maybe[WAL_SECTOR];
    if img[slot].sb.sequence >= floor {
      HeldReadable(p, capacity, held, img, SuperRoot(img[slot].sb));
    }
  }

  lemma SomeSlotCounts(p: Platter, capacity: nat, held: Held, lists: set<seq<Snapshot>>, floor: nat,
                       roots: set<Root>, img: seq<Record>)
    requires Safe(p, capacity, held, lists, floor, roots) && IsImage(p, img)
    ensures |img| >= FIRST_ALLOCATABLE
    ensures img[SUPERBLOCK_A].Super? && img[SUPERBLOCK_B].Super?
    ensures img[SUPERBLOCK_A].sb.sequence >= floor || img[SUPERBLOCK_B].sb.sequence >= floor
  {
    hide OnDisk, WellFormed, SuperOk;
    assert img[SUPERBLOCK_A] in p.maybe[SUPERBLOCK_A] && img[SUPERBLOCK_B] in p.maybe[SUPERBLOCK_B];
  }

  /** Mount picks the newest superblock, which is at or above the floor and acceptable. */
  lemma ChoiceIsOk(p: Platter, capacity: nat, held: Held, lists: set<seq<Snapshot>>, floor: nat,
                   roots: set<Root>, img: seq<Record>)
    requires Safe(p, capacity, held, lists, floor, roots)
    requires IsImage(p, img)
    ensures var chosen := ChosenSuper(img[SUPERBLOCK_A], img[SUPERBLOCK_B], |img|, capacity);
            && chosen.Some?
            && img[chosen.value].Super? && img[1 - chosen.value].Super?
            && img[1 - chosen.value].sb.sequence < img[chosen.value].sb.sequence
            && img[chosen.value].sb.sequence >= floor
            && SuperOk(img[chosen.value].sb, |img|, capacity, held, lists)
            && EffectiveRoot(img[chosen.value].sb, img[WAL_SECTOR]) in roots
  {
    hide Safe, SuperOk, IsImage, EffectiveRoot;
    SomeSlotCounts(p, capacity, held, lists, floor, roots, img);
    SlotIsOk(p, capacity, held, lists, floor, roots, img, SUPERBLOCK_A);
    SlotIsOk(p, capacity, held, lists, floor, roots, img, SUPERBLOCK_B);
  }

  /**
   * The crash theorem: from a safe platter, every crash image mounts, leads to one of the
   * expected generations, and has that generation's table and every object sector intact.
   */
  lemma CrashRecovers(p: Platter, capacity: nat, held: Held, lists: set<seq<Snapshot>>, floor: nat,
                      roots: set<Root>, img: seq<Record>)
    requires Safe(p, capacity, held, lists, floor, roots)
    requires IsImage(p, img)
    ensures Recover(img, capacity).Some?
    ensures var m := Recover(img, capacity).value;
            && m.root in roots
            && OnDisk(img, m.root, held[m.root])
            && m.table == held[m.root].entries
            && m.sb.sequence >= floor
            && m.sb.snapshots in lists
  {
    hide OnDisk, WellFormed, ReadTable, IsValidSuper;
    ChoiceIsOk(p, capacity, held, lists, floor, roots, img);
    var chosen := ChosenSuper(img[SUPERBLOCK_A], img[SUPERBLOCK_B], |img|, capacity).value;
    var sb, wal := img[chosen].sb, img[WAL_SECTOR];
    assert wal in p.maybe[WAL_SECTOR];
    HeldReadable(p, capacity, held, img, EffectiveRoot(sb, wal));
    forall i | 0 <= i < |sb.snapshots| && sb.snapshots[i].id != 0
      ensures ReadTable(img, SnapshotRoot(sb.snapshots[i]), capacity).Some?
    {
      HeldReadable(p, capacity, held, img, SnapshotRoot(sb.snapshots[i]));
    }
  }

  /** What being held says about a root, without the disk. */
  lemma SafeFacts(p: Platter, capacity: nat, held: Held, lists: set<seq<Snapshot>>, floor: nat, roots: set<Root>)
    requires Safe(p, capacity, held, lists, floor, roots)
    ensures forall root :: root in held ==> |held[root].entries| == |held[root].blocks| == root.count
    ensures forall root :: root in held ==> WellFormed(held[root], capacity)
    ensures forall root :: root in held ==> OnDisk(p.cur, root, held[root])
    ensures forall l :: l in lists ==> SnapshotsHeld(l, held) && |l| == SNAPSHOT_LIMIT
    ensures roots <= held.Keys
    ensures |p.maybe| == |p.cur| >= FIRST_ALLOCATABLE
  {
  }

  /** While one outcome is certain, every record the log may hold already leads to it. */
  lemma LogLeadsHere(p: Platter, capacity: nat, held: Held, lists: set<seq<Snapshot>>, floor: nat, here: Root,
                     active: nat, sb: Superblock)
    requires Safe(p, capacity, held, lists, floor, {here})
    requires active <= SUPERBLOCK_B && p.cur[active].Super? && p.cur[active].sb.sequence >= floor
    requires SuperRoot(sb) == here
    ensures forall w :: w in p.maybe[WAL_SECTOR] ==> EffectiveRoot(sb, w) == here
  {
    assert p.cur[active] in p.maybe[active];
    forall w | w in p.maybe[WAL_SECTOR]
      ensures EffectiveRoot(sb, w) == here
    {
      assert EffectiveRoot(p.cur[active].sb, w) in {here};
    }
  }

  // ---- How the invariant moves ------------------------------------------------------------

  ghost predicate Untouched(held: Held, s: nat) {
    forall root :: root in held ==> !Covers(root, held[root].entries, s)
  }

  lemma HoldsAfterWrite(p: Platter, root: Root, g: Generation, s: nat, r: Record)
    requires Shaped(p) && s < |p.cur| && Holds(p, root, g) && !Covers(root, g.entries, s)
    ensures Holds(Wrote(p, s, r), root, g)
  {
    var q := Wrote(p, s, r);
    forall i | 0 <= i < |g.entries|
      ensures q.cur[root.sector + i] == TableEntry(g.entries[i])
    {
      assert InTable(root, root.sector + i);
    }
    forall i | 0 <= i < |g.entries|
      ensures ExtentOnDisk(q.cur, g.entries[i], g.blocks[i])
    {
      var e := g.entries[i];
      assert ExtentOnDisk(p.cur, e, g.blocks[i]);
      assert !InExtent(e, s);
      assert q.cur[e.first..e.first + e.count] == p.cur[e.first..e.first + e.count];
    }
  }

  lemma AllHeldAfterWrite(p: Platter, capacity: nat, held: Held, s: nat, r: Record)
    requires Shaped(p) && AllHeld(p, capacity, held) && s < |p.cur| && Untouched(held, s)
    ensures AllHeld(Wrote(p, s, r), capacity, held)
  {
    forall root | root in held
      ensures Holds(Wrote(p, s, r), root, held[root])
    {
      HoldsAfterWrite(p, root, held[root], s, r);
    }
  }

  /** The first three sectors belong to no generation. */
  lemma HeadersUntouched(p: Platter, capacity: nat, held: Held, s: nat)
    requires Shaped(p) && AllHeld(p, capacity, held) && s < FIRST_ALLOCATABLE
    ensures Untouched(held, s)
  {
    forall root | root in held
      ensures !Covers(root, held[root].entries, s)
    {
      var g := held[root];
      assert Holds(p, root, g);
      assert forall i :: 0 <= i < |g.entries| ==> ExtentOnDisk(p.cur, g.entries[i], g.blocks[i]);
    }
  }

  /** Copy-on-write: writing outside everything held is invisible to recovery. */
  lemma WriteOutside(p: Platter, capacity: nat, held: Held, lists: set<seq<Snapshot>>, floor: nat,
                     roots: set<Root>, s: nat, r: Record)
    requires Safe(p, capacity, held, lists, floor, roots)
    requires FIRST_ALLOCATABLE <= s < |p.cur| && Untouched(held, s)
    ensures Safe(Wrote(p, s, r), capacity, held, lists, floor, roots)
  {
    AllHeldAfterWrite(p, capacity, held, s, r);
  }

  /** A superblock that is itself acceptable may be buffered at any time. */
  lemma WriteSuper(p: Platter, capacity: nat, held: Held, lists: set<seq<Snapshot>>, floor: nat,
                   roots: set<Root>, s: nat, sb: Superblock)
    requires Safe(p, capacity, held, lists, floor, roots)
    requires s == SUPERBLOCK_A || s == SUPERBLOCK_B
    requires sb.sequence >= floor && sb.sequence % 2 == s && SuperOk(sb, |p.cur|, capacity, held, lists)
    requires forall w :: w in p.maybe[WAL_SECTOR] ==> EffectiveRoot(sb, w) in roots
    ensures Safe(Wrote(p, s, Super(sb)), capacity, held, lists, floor, roots)
  {
    HeadersUntouched(p, capacity, held, s);
    AllHeldAfterWrite(p, capacity, held, s, Super(sb));
  }

  /** Logging a held root (or clearing the log) adds what it leads to. */
  lemma WriteWal(p: Platter, capacity: nat, held: Held, lists: set<seq<Snapshot>>, floor: nat,
                 roots: set<Root>, w: Record)
    requires Safe(p, capacity, held, lists, floor, roots)
    requires WalsOk({w}, held)
    requires LeadsTo(p.maybe[SUPERBLOCK_A], {w}, floor, roots)
    requires LeadsTo(p.maybe[SUPERBLOCK_B], {w}, floor, roots)
    ensures Safe(Wrote(p, WAL_SECTOR, w), capacity, held, lists, floor, roots)
  {
    hide OnDisk, WellFormed, SuperOk, SnapshotsHeld, Covers, AllHeld;
    HeadersUntouched(p, capacity, held, WAL_SECTOR);
    AllHeldAfterWrite(p, capacity, held, WAL_SECTOR, w);
    var q := Wrote(p, WAL_SECTOR, w);
    assert w in {w};
    assert LeadsTo(q.maybe[SUPERBLOCK_A], q.maybe[WAL_SECTOR], floor, roots);
    assert LeadsTo(q.maybe[SUPERBLOCK_B], q.maybe[WAL_SECTOR], floor, roots);
  }

  lemma FlushKeepsSafe(p: Platter, capacity: nat, held: Held, lists: set<seq<Snapshot>>, floor: nat,
                       roots: set<Root>)
    requires Safe(p, capacity, held, lists, floor, roots)
    ensures Safe(Settled(p.cur), capacity, held, lists, floor, roots)
  {
    var q := Settled(p.cur);
    forall root | root in held
      ensures Holds(q, root, held[root])
    {
      assert Holds(p, root, held[root]);
    }
  }

  /** Buffering and then flushing an acceptable superblock stays safe throughout. */
  lemma SuperSteps(p: Platter, capacity: nat, held: Held, lists: set<seq<Snapshot>>, floor: nat,
                   roots: set<Root>, s: nat, sb: Superblock)
    requires Safe(p, capacity, held, lists, floor, roots)
    requires s == SUPERBLOCK_A || s == SUPERBLOCK_B
    requires sb.sequence >= floor && sb.sequence % 2 == s && SuperOk(sb, |p.cur|, capacity, held, lists)
    requires forall w :: w in p.maybe[WAL_SECTOR] ==> EffectiveRoot(sb, w) in roots
    ensures Safe(Wrote(p, s, Super(sb)), capacity, held, lists, floor, roots)
    ensures Safe(Settled(p.cur[s := Super(sb)]), capacity, held, lists, floor, roots)
  {
    WriteSuper(p, capacity, held, lists, floor, roots, s, sb);
    FlushKeepsSafe(Wrote(p, s, Super(sb)), capacity, held, lists, floor, roots);
  }

  /** Logging a held root opens the choice between the old outcome and that root. */
  lemma LogSteps(p: Platter, capacity: nat, held: Held, lists: set<seq<Snapshot>>, floor: nat,
                 here: Root, root: Root, w: Record)
    requires Safe(p, capacity, held, lists, floor, {here})
    requires w.Wal? && w.generation != 0 && Root(w.tableSector, w.tableCount) == root && root in held
    ensures Safe(p, capacity, held, lists, floor, {here, root})
    ensures Safe(Wrote(p, WAL_SECTOR, w), capacity, held, lists, floor, {here, root})
    ensures Safe(Settled(p.cur[WAL_SECTOR := w]), capacity, held, lists, floor, {root})
    ensures Safe(Settled(p.cur[WAL_SECTOR := w]), capacity, held, lists, floor, {here, root})
  {
    hide OnDisk, WellFormed, SuperOk, SnapshotsHeld, Covers, AllHeld;
    WriteWal(p, capacity, held, lists, floor, {here, root}, w);
    var q := Wrote(p, WAL_SECTOR, w);
    FlushKeepsSafe(q, capacity, held, lists, floor, {here, root});
    var settled := Settled(p.cur[WAL_SECTOR := w]);
    assert settled == Settled(q.cur);
  }

  /** Clearing the log once every superblock already leads to the logged root. */
  lemma ClearSteps(p: Platter, capacity: nat, held: Held, lists: set<seq<Snapshot>>, floor: nat, roots: set<Root>)
    requires Safe(p, capacity, held, lists, floor, roots)
    requires LeadsTo(p.maybe[SUPERBLOCK_A], {Blank}, floor, roots)
    requires LeadsTo(p.maybe[SUPERBLOCK_B], {Blank}, floor, roots)
    ensures Safe(Wrote(p, WAL_SECTOR, Blank), capacity, held, lists, floor, roots)
    ensures Safe(Settled(p.cur[WAL_SECTOR := Blank]), capacity, held, lists, floor, roots)
  {
    WriteWal(p, capacity, held, lists, floor, roots, Blank);
    FlushKeepsSafe(Wrote(p, WAL_SECTOR, Blank), capacity, held, lists, floor, roots);
  }

  /** After a crash the surviving image is safe by itself, with its outcome decided. */
  lemma ImageIsSafe(p: Platter, capacity: nat, held: Held, lists: set<seq<Snapshot>>, floor: nat,
                    roots: set<Root>, img: seq<Record>)
    requires Safe(p, capacity, held, lists, floor, roots)
    requires IsImage(p, img)
    ensures Safe(Settled(img), capacity, held, lists, floor, roots)
  {
    hide OnDisk, WellFormed, SuperOk, SnapshotsHeld, Covers, EffectiveRoot;
    forall root | root in held
      ensures Holds(Settled(img), root, held[root])
    {
      HeldInImage(p, root, held[root], img);
    }
  }

  /**
   * Once the newest superblock is durable, older ones no longer count: the floor rises to
   * it, and only what it names has to stay held.
   */
  lemma RaiseFloor(img: seq<Record>, capacity: nat, held: Held, lists: set<seq<Snapshot>>, floor: nat,
                   roots: set<Root>, active: nat, kept: Held)
    requires Safe(Settled(img), capacity, held, lists, floor, roots)
    requires active == SUPERBLOCK_A || active == SUPERBLOCK_B
    requires img[active].Super? && img[1 - active].Super?
    requires img[1 - active].sb.sequence < img[active].sb.sequence
    requires floor <= img[active].sb.sequence
    requires kept.Keys <= held.Keys && forall root :: root in kept ==> kept[root] == held[root]
    requires SuperRoot(img[active].sb) in kept
    requires SnapshotsHeld(img[active].sb.snapshots, kept)
    requires WalsOk({img[WAL_SECTOR]}, kept)
    ensures Safe(Settled(img), capacity, kept, {img[active].sb.snapshots}, img[active].sb.sequence,
                 {EffectiveRoot(img[active].sb, img[WAL_SECTOR])})
  {
    hide OnDisk, WellFormed, SnapshotsHeld, Covers;
    var p := Settled(img);
    assert img[active] in p.maybe[active];
    assert SuperOk(img[active].sb, |img|, capacity, held, lists);
    assert SuperOk(img[active].sb, |img|, capacity, kept, {img[active].sb.snapshots});
  }

  /** The sequence in memory has the parity of the slot it came from. */
  lemma SlotParity(p: Platter, capacity: nat, held: Held, lists: set<seq<Snapshot>>, floor: nat, roots: set<Root>,
                   active: nat)
    requires Safe(p, capacity, held, lists, floor, roots) && active <= SUPERBLOCK_B
    ensures p.cur[active].Super? && p.cur[active].sb.sequence % 2 == active
  {
    assert p.cur[active] in p.maybe[active];
  }

  /** A crash decides: the surviving image is safe by itself, with one outcome and one list. */
  lemma CrashDecides(p: Platter, capacity: nat, held: Held, lists: set<seq<Snapshot>>, floor: nat,
                     roots: set<Root>, img: seq<Record>)
    requires Safe(p, capacity, held, lists, floor, roots) && IsImage(p, img)
    ensures Recover(img, capacity).Some?
    ensures var m := Recover(img, capacity).value;
            && m.root in roots && m.sb.snapshots in lists
            && Safe(Settled(img), capacity, held, {m.sb.snapshots}, m.sb.sequence, {m.root})
  {
    hide Safe, ReadTable, SnapshotsReadable, IsImage, OnDisk, WellFormed, IsValidSuper, IsValidWal, WalsOk;
    CrashRecovers(p, capacity, held, lists, floor, roots, img);
    ImageIsSafe(p, capacity, held, lists, floor, roots, img);
    ChoiceIsOk(p, capacity, held, lists, floor, roots, img);
    var m := Recover(img, capacity).value;
    SafeFacts(Settled(img), capacity, held, lists, floor, roots);
    WalOf(p, capacity, held, lists, floor, roots, img);
    RaiseFloor(img, capacity, held, lists, floor, roots, m.active, held);
  }

  lemma WalOf(p: Platter, capacity: nat, held: Held, lists: set<seq<Snapshot>>, floor: nat,
              roots: set<Root>, img: seq<Record>)
    requires Safe(p, capacity, held, lists, floor, roots) && IsImage(p, img)
    ensures WalsOk({img[WAL_SECTOR]}, held)
  {
    assert img[WAL_SECTOR] in p.maybe[WAL_SECTOR];
  }

  /** One more snapshot list may become possible if everything it names is held. */
  lemma WidenLists(p: Platter, capacity: nat, held: Held, lists: set<seq<Snapshot>>, floor: nat,
                   roots: set<Root>, l: seq<Snapshot>)
    requires Safe(p, capacity, held, lists, floor, roots) && SnapshotsHeld(l, held)
    ensures Safe(p, capacity, held, lists + {l}, floor, roots)
  {
  }

  /** A generation that has become durable may be added to what is held. */
  lemma HoldMore(p: Platter, capacity: nat, held: Held, lists: set<seq<Snapshot>>, floor: nat,
                 roots: set<Root>, root: Root, g: Generation)
    requires Safe(p, capacity, held, lists, floor, roots)
    requires Holds(p, root, g) && WellFormed(g, capacity) && (root in held ==> held[root] == g)
    requires forall r :: r in p.maybe[SUPERBLOCK_A] + p.maybe[SUPERBLOCK_B] && r.Super? && r.sb.sequence >= floor ==>
               root.sector + root.count <= r.sb.next
    ensures Safe(p, capacity, held[root := g], lists, floor, roots)
  {
    hide OnDisk, WellFormed, Covers, EffectiveRoot;
    forall l | l in lists
      ensures SnapshotsHeld(l, held[root := g])
    {
      assert SnapshotsHeld(l, held);
    }
  }

  // ---- Crash tails: every platter an operation passes through ---------------------------

  /** The generation each live snapshot would restore. */
  type Archive = map<nat, Generation>

  ghost function ArchiveOf(snapshots: seq<Snapshot>, held: Held): Archive
    requires SnapshotsHeld(snapshots, held)
  {
    map i | 0 <= i < SNAPSHOT_LIMIT && snapshots[i].id != 0 ::
      snapshots[i].id := held[SnapshotRoot(snapshots[i])]
  }

  ghost function ArchivesOf(lists: set<seq<Snapshot>>, held: Held): set<Archive> {
    set l | l in lists && SnapshotsHeld(l, held) :: ArchiveOf(l, held)
  }

  /** The image holds every generation of the archive where the snapshot list says. */
  ghost predicate ArchiveOnDisk(img: seq<Record>, capacity: nat, snapshots: seq<Snapshot>, archive: Archive) {
    && (forall i :: 0 <= i < |snapshots| && snapshots[i].id != 0 ==>
          && snapshots[i].id in archive
          && WellFormed(archive[snapshots[i].id], capacity)
          && OnDisk(img, SnapshotRoot(snapshots[i]), archive[snapshots[i].id]))
    && (forall id :: id in archive ==> exists i :: 0 <= i < |snapshots| && snapshots[i].id == id != 0)
  }

  /** A store mounted from the image can go on: the disk is safe, with one outcome. */
  ghost predicate Resumable(img: seq<Record>, capacity: nat, m: Mounted, g: Generation, archive: Archive, held: Held) {
    && Safe(Settled(img), capacity, held, {m.sb.snapshots}, m.sb.sequence, {m.root})
    && m.root in held && held[m.root] == g
    && SnapshotsHeld(m.sb.snapshots, held) && ArchiveOf(m.sb.snapshots, held) == archive
  }

  /**
   * The image mounts into exactly this generation and this archive, complete and readable,
   * and the store can go on from there.
   */
  ghost predicate MountsInto(img: seq<Record>, capacity: nat, g: Generation, archive: Archive)
    requires |img| >= FIRST_ALLOCATABLE
  {
    && Recover(img, capacity).Some?
    && var m := Recover(img, capacity).value;
       && WellFormed(g, capacity)
       && OnDisk(img, m.root, g)
       && m.table == g.entries
       && ArchiveOnDisk(img, capacity, m.sb.snapshots, archive)
       && exists held :: Resumable(img, capacity, m, g, archive, held)
  }

  /** Every crash from platter `p` mounts into one of `gens` with one of `archives`. */
  ghost predicate CrashesInto(p: Platter, capacity: nat, gens: set<Generation>, archives: set<Archive>) {
    && |p.maybe| >= FIRST_ALLOCATABLE
    && forall img :: IsImage(p, img) ==>
         exists g, archive :: g in gens && archive in archives && MountsInto(img, capacity, g, archive)
  }

  /** The platters since `from` all crash into one of `gens` with one of `archives`. */
  ghost predicate CrashTail(history: seq<Platter>, from: nat, capacity: nat, gens: set<Generation>,
                            archives: set<Archive>) {
    from <= |history| && forall i :: from <= i < |history| ==> CrashesInto(history[i], capacity, gens, archives)
  }

  ghost predicate SafeTail(history: seq<Platter>, from: nat, capacity: nat, held: Held,
                           lists: set<seq<Snapshot>>, floor: nat, roots: set<Root>) {
    from <= |history| && forall i :: from <= i < |history| ==> Safe(history[i], capacity, held, lists, floor, roots)
  }

  lemma SnapshotInArchive(snapshots: seq<Snapshot>, held: Held, i: nat)
    requires SnapshotsHeld(snapshots, held) && i < SNAPSHOT_LIMIT && snapshots[i].id != 0
    ensures snapshots[i].id in ArchiveOf(snapshots, held)
    ensures ArchiveOf(snapshots, held)[snapshots[i].id] == held[SnapshotRoot(snapshots[i])]
  {
  }

  lemma HeldArchive(p: Platter, capacity: nat, held: Held, img: seq<Record>, snapshots: seq<Snapshot>)
    requires Shaped(p) && AllHeld(p, capacity, held) && IsImage(p, img) && SnapshotsHeld(snapshots, held)
    ensures ArchiveOnDisk(img, capacity, snapshots, ArchiveOf(snapshots, held))
  {
    var archive := ArchiveOf(snapshots, held);
    forall i | 0 <= i < |snapshots| && snapshots[i].id != 0
      ensures snapshots[i].id in archive
      ensures WellFormed(archive[snapshots[i].id], capacity)
      ensures OnDisk(img, SnapshotRoot(snapshots[i]), archive[snapshots[i].id])
    {
      hide WellFormed, OnDisk, IsImage, ReadTable, ArchiveOf;
      SnapshotInArchive(snapshots, held, i);
      HeldReadable(p, capacity, held, img, SnapshotRoot(snapshots[i]));
    }
  }

  lemma SafeCrashesInto(p: Platter, capacity: nat, held: Held, lists: set<seq<Snapshot>>, floor: nat,
                        roots: set<Root>, gens: set<Generation>, archives: set<Archive>)
    requires Safe(p, capacity, held, lists, floor, roots)
    requires forall root :: root in roots && root in held ==> held[root] in gens
    requires ArchivesOf(lists, held) <= archives
    ensures CrashesInto(p, capacity, gens, archives)
  {
    hide WellFormed, OnDisk, Recover, ArchiveOnDisk, ArchiveOf, SnapshotsHeld, SupersOk, LeadsTo, AtLeast, WalsOk;
    forall img | IsImage(p, img)
      ensures exists g, archive :: g in gens && archive in archives && MountsInto(img, capacity, g, archive)
    {
      CrashRecovers(p, capacity, held, lists, floor, roots, img);
      CrashDecides(p, capacity, held, lists, floor, roots, img);
      var m := Recover(img, capacity).value;
      HeldArchive(p, capacity, held, img, m.sb.snapshots);
      var g, archive := held[m.root], ArchiveOf(m.sb.snapshots, held);
      assert archive in ArchivesOf(lists, held);
      assert Resumable(img, capacity, m, g, archive, held);
      assert MountsInto(img, capacity, g, archive);
    }
  }

  lemma SafeTailCrashes(history: seq<Platter>, from: nat, capacity: nat, held: Held, lists: set<seq<Snapshot>>,
                        floor: nat, roots: set<Root>, gens: set<Generation>, archives: set<Archive>)
    requires SafeTail(history, from, capacity, held, lists, floor, roots)
    requires forall root :: root in roots && root in held ==> held[root] in gens
    requires ArchivesOf(lists, held) <= archives
    ensures CrashTail(history, from, capacity, gens, archives)
  {
    hide Safe, CrashesInto, ArchivesOf;
    forall i | from <= i < |history|
      ensures CrashesInto(history[i], capacity, gens, archives)
    {
      SafeCrashesInto(history[i], capacity, held, lists, floor, roots, gens, archives);
    }
  }

  lemma WidenTail(history: seq<Platter>, from: nat, capacity: nat, gens: set<Generation>, archives: set<Archive>,
                  more: set<Generation>, wider: set<Archive>)
    requires CrashTail(history, from, capacity, gens, archives) && gens <= more && archives <= wider
    ensures CrashTail(history, from, capacity, more, wider)
  {
    hide MountsInto, IsImage;
    forall i | from <= i < |history|
      ensures CrashesInto(history[i], capacity, more, wider)
    {
      assert CrashesInto(history[i], capacity, gens, archives);
    }
  }

  lemma JoinTails(earlier: seq<Platter>, history: seq<Platter>, from: nat, capacity: nat, gens: set<Generation>,
                  archives: set<Archive>)
    requires CrashTail(earlier, from, capacity, gens, archives)
    requires earlier <= history && CrashTail(history, |earlier|, capacity, gens, archives)
    ensures CrashTail(history, from, capacity, gens, archives)
  {
    hide CrashesInto;
    forall i | from <= i < |history|
      ensures CrashesInto(history[i], capacity, gens, archives)
    {
      assert i < |earlier| ==> history[i] == earlier[i];
    }
  }
}
