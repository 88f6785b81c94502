/** What a disk sector holds, how an object is cut into sectors, and what a table generation is. */
module Layout {
  import opened ObjectIds
  import opened ObjectTables

  const SECTOR_SIZE: nat := 512
  const HEADER_SIZE: nat := 128
  const SUPERBLOCK_A: nat := 0
  const SUPERBLOCK_B: nat := 1
  const WAL_SECTOR: nat := 2
  const FIRST_ALLOCATABLE: nat := 3
  const SNAPSHOT_LIMIT: nat := 8

  datatype Header = Header(id: ObjectId, typeId: ObjectId, version: nat, payloadSize: nat,
                           creator: ObjectId, modifier: ObjectId, timestamp: nat)

  /** One byte of an object: a byte of its encoded header, or a payload (or padding) byte. */
  datatype Cell = Meta(header: Header, at: nat) | Raw(value: bv8)

  datatype Snapshot = Snapshot(id: nat, sector: nat, count: nat)

  const NO_SNAPSHOT := Snapshot(0, 0, 0)
  const NO_SNAPSHOTS := seq(SNAPSHOT_LIMIT, _ => NO_SNAPSHOT)

  datatype Superblock = Superblock(sequence: nat, capacity: nat, next: nat, tableSector: nat,
                                   tableCount: nat, generation: nat, snapshots: seq<Snapshot>)

  /** The abstract content of one sector; `Blank` is the all-zero sector. */
  datatype Record =
    | Blank
    | Super(sb: Superblock)
    | Wal(tableSector: nat, tableCount: nat, generation: nat)
    | TableEntry(entry: Entry)
    | Data(cells: seq<Cell>)

  /** Names a table generation by the sectors its entries occupy. */
  datatype Root = Root(sector: nat, count: nat)

  /** A table generation with the sectors of every object it lists. */
  datatype Generation = Generation(entries: seq<Entry>, blocks: seq<seq<Record>>)

  // ---- Objects as bytes -------------------------------------------------------------

  function Encode(h: Header, payload: seq<bv8>): seq<Cell> {
    seq(HEADER_SIZE, i requires 0 <= i => Meta(h, i)) + seq(|payload|, i requires 0 <= i < |payload| => Raw(payload[i]))
  }

  /** Whole sectors needed for `length` bytes. */
  function SectorsFor(length: nat): nat {
    length / SECTOR_SIZE + (if length % SECTOR_SIZE != 0 then 1 else 0)
  }

  /** Sector `k` of an object, zero padded. */
  function Block(cells: seq<Cell>, k: nat): Record {
    Data(seq(SECTOR_SIZE, j requires 0 <= j < SECTOR_SIZE =>
           if SECTOR_SIZE * k + j < |cells| then cells[SECTOR_SIZE * k + j] else Raw(0)))
  }

  function Blocks(cells: seq<Cell>): seq<Record> {
    seq(SectorsFor(|cells|), k requires 0 <= k < SectorsFor(|cells|) => Block(cells, k))
  }

  predicate IsData(r: Record) {
    r.Data? && |r.cells| == SECTOR_SIZE
  }

  predicate AllData(blocks: seq<Record>) {
    forall k :: 0 <= k < |blocks| ==> IsData(blocks[k])
  }

  /** The bytes of consecutive sectors, as a read loop assembles them. */
  function Joined(blocks: seq<Record>): seq<Cell>
    requires AllData(blocks)
  {
    seq(SECTOR_SIZE * |blocks|, i requires 0 <= i < SECTOR_SIZE * |blocks| =>
      blocks[i / SECTOR_SIZE].cells[i % SECTOR_SIZE])
  }

  /** A decodable header followed by at least the payload it announces. */
  predicate IsObject(cells: seq<Cell>) {
    && |cells| >= HEADER_SIZE
    && cells[0].Meta?
    && (forall i :: 0 <= i < HEADER_SIZE ==> cells[i] == Meta(cells[0].header, i))
    && !IsZero(cells[0].header.id) && !IsZero(cells[0].header.typeId)
    && cells[0].header.version != 0
    && cells[0].header.payloadSize <= |cells| - HEADER_SIZE
  }

  function HeaderOf(cells: seq<Cell>): Header
    requires IsObject(cells)
  {
    cells[0].header
  }

  function PayloadOf(cells: seq<Cell>): seq<Cell>
    requires IsObject(cells)
  {
    cells[HEADER_SIZE..HEADER_SIZE + HeaderOf(cells).payloadSize]
  }

  function RawBytes(payload: seq<bv8>): seq<Cell> {
    seq(|payload|, i requires 0 <= i < |payload| => Raw(payload[i]))
  }

  lemma SectorsCover(length: nat)
    ensures SECTOR_SIZE * SectorsFor(length) >= length
    ensures length > 0 ==> SECTOR_SIZE * (SectorsFor(length) - 1) < length
  {
  }

  /** Cutting an object into sectors and joining them again yields its bytes plus padding. */
  lemma JoinedBlocks(cells: seq<Cell>)
    ensures AllData(Blocks(cells))
    ensures |Joined(Blocks(cells))| == SECTOR_SIZE * SectorsFor(|cells|) >= |cells|
    ensures Joined(Blocks(cells))[..|cells|] == cells
  {
    SectorsCover(|cells|);
    var joined := Joined(Blocks(cells));
    forall i | 0 <= i < |cells|
      ensures joined[i] == cells[i]
    {
      assert SECTOR_SIZE * (i / SECTOR_SIZE) + i % SECTOR_SIZE == i;
    }
  }

  /** Round trip: an encoded object reads back with its own header and payload. */
  lemma EncodeRoundTrip(h: Header, payload: seq<bv8>)
    requires !IsZero(h.id) && !IsZero(h.typeId) && h.version != 0 && h.payloadSize == |payload|
    ensures AllData(Blocks(Encode(h, payload)))
    ensures IsObject(Joined(Blocks(Encode(h, payload))))
    ensures HeaderOf(Joined(Blocks(Encode(h, payload)))) == h
    ensures PayloadOf(Joined(Blocks(Encode(h, payload)))) == RawBytes(payload)
  {
    var cells := Encode(h, payload);
    JoinedBlocks(cells);
    var joined := Joined(Blocks(cells));
    assert forall i :: 0 <= i < HEADER_SIZE ==> joined[i] == joined[..|cells|][i] == Meta(h, i);
    assert PayloadOf(joined) == joined[..|cells|][HEADER_SIZE..];
  }

  // ---- Table generations ------------------------------------------------------------

  predicate IsStored(e: Entry, blocks: seq<Record>) {
    && |blocks| == e.count
    && AllData(blocks)
    && IsObject(Joined(blocks))
    && HeaderOf(Joined(blocks)).id == e.id
    && HeaderOf(Joined(blocks)).version == e.version
  }

  ghost predicate WellFormed(g: Generation, capacity: nat) {
    && |g.entries| == |g.blocks| <= capacity
    && Sorted(g.entries)
    && (forall i :: 0 <= i < |g.entries| ==> IsValidEntry(g.entries[i]))
    && (forall i :: 0 <= i < |g.entries| ==> IsStored(g.entries[i], g.blocks[i]))
  }

  predicate InTable(root: Root, s: nat) {
    root.sector <= s < root.sector + root.count
  }

  predicate InExtent(e: Entry, s: nat) {
    e.first <= s < e.first + e.count
  }

  /** The sectors a generation depends on: its table and the extents it lists. */
  ghost predicate Covers(root: Root, entries: seq<Entry>, s: nat) {
    InTable(root, s) || exists i :: 0 <= i < |entries| && InExtent(entries[i], s)
  }

  ghost predicate ExtentOnDisk(img: seq<Record>, e: Entry, blocks: seq<Record>) {
    && FIRST_ALLOCATABLE <= e.first
    && e.first + e.count <= |img|
    && img[e.first..e.first + e.count] == blocks
  }

  ghost predicate TableOnDisk(img: seq<Record>, root: Root, entries: seq<Entry>) {
    && |entries| == root.count
    && (root.count == 0 ==> root.sector == 0)
    && (root.count != 0 ==> FIRST_ALLOCATABLE <= root.sector)
    && root.sector + root.count <= |img|
    && (forall i :: 0 <= i < |entries| ==> img[root.sector + i] == TableEntry(entries[i]))
  }

  /** The disk image holds generation `g` at `root`, table and objects. */
  ghost predicate OnDisk(img: seq<Record>, root: Root, g: Generation) {
    && |g.blocks| == |g.entries|
    && TableOnDisk(img, root, g.entries)
    && (forall i :: 0 <= i < |g.entries| ==> ExtentOnDisk(img, g.entries[i], g.blocks[i]))
  }

  const EMPTY_ROOT := Root(0, 0)
  const EMPTY := Generation([], [])

  // ---- The logical content of a generation -------------------------------------------

  datatype StoredObject = StoredObject(version: nat, blocks: seq<Record>)

  /** The object a generation stores under `id`, wherever its extent was placed. */
  function Lookup(g: Generation, id: ObjectId): Option<StoredObject>
    requires |g.blocks| == |g.entries|
  {
    var p := Rank(g.entries, id);
    if p < |g.entries| && g.entries[p].id == id then Some(StoredObject(g.entries[p].version, g.blocks[p]))
    else None
  }

  lemma LookupAt(g: Generation, i: nat)
    requires |g.blocks| == |g.entries| && Sorted(g.entries) && i < |g.entries|
    ensures Lookup(g, g.entries[i].id) == Some(StoredObject(g.entries[i].version, g.blocks[i]))
  {
    RankIsLowerBound(g.entries, g.entries[i].id, i);
  }
}
