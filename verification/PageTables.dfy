/**
 * The four-level page tree as a refinement of a partial map from canonical pages to leaf
 * entries: 4-level paging as in section 4.5 of the Intel SDM, volume 3A.
 */
module PageTables {
  import opened ObjectIds
  import opened Frames

  const ENTRIES: nat := 512
  const PAGE: nat := 4096
  /** Physical addresses have 52 bits. */
  const PHYSICAL_MAX: nat := 0x10_0000_0000_0000

  datatype Flag = Present | Writable | User | WriteThrough | CacheDisable | Huge | NoExecute

  const KEPT: set<Flag> := {Writable, User, WriteThrough, CacheDisable, NoExecute}

  /** A table entry: the address bits, as a frame number, and the flag bits. */
  datatype Entry = Entry(frame: nat, flags: set<Flag>)

  const EMPTY := Entry(0, {})

  predicate IsTable(e: Entry) {
    Present in e.flags && Huge !in e.flags
  }

  type Table = t: seq<Entry> | |t| == ENTRIES witness seq(ENTRIES, _ => EMPTY)

  function Blank(): (t: Table)
    ensures forall i :: 0 <= i < ENTRIES ==> t[i] == EMPTY
  {
    seq(ENTRIES, _ => EMPTY)
  }

  type Tables = map<nat, Table>

  // ---- Addresses -------------------------------------------------------------------------------

  /** Bits 48 to 63 repeat bit 47. */
  predicate Canonical(v: nat) {
    if v / 0x8000_0000_0000 % 2 != 0 then v / 0x1_0000_0000_0000 == 0xFFFF else v / 0x1_0000_0000_0000 == 0
  }

  predicate IsPage(v: nat) {
    Canonical(v) && v % PAGE == 0
  }

  /** The indices into the four levels, root first. */
  function Indices(v: nat): (p: seq<nat>)
    ensures |p| == 4 && forall k :: 0 <= k < 4 ==> p[k] < ENTRIES
  {
    [v / 0x80_0000_0000 % ENTRIES, v / 0x4000_0000 % ENTRIES, v / 0x20_0000 % ENTRIES, v / PAGE % ENTRIES]
  }

  /** Splitting loses nothing: a canonical page is determined by its indices. */
  lemma IndicesDetermine(v: nat, w: nat)
    requires IsPage(v) && IsPage(w) && Indices(v) == Indices(w)
    ensures v == w
  {
    assert Indices(v)[0] == Indices(w)[0] && Indices(v)[1] == Indices(w)[1];
    assert Indices(v)[2] == Indices(w)[2] && Indices(v)[3] == Indices(w)[3];
    LowBits(v);
    LowBits(w);
    HighBits(v);
    HighBits(w);
  }

  lemma LowBits(v: nat)
    requires v % PAGE == 0
    ensures v % 0x1_0000_0000_0000
            == Indices(v)[0] * 0x80_0000_0000 + Indices(v)[1] * 0x4000_0000 + Indices(v)[2] * 0x20_0000 + Indices(v)[3] * PAGE
  {
    var a, b, c, d := v / PAGE, v / 0x20_0000, v / 0x4000_0000, v / 0x80_0000_0000;
    assert b == a / ENTRIES && c == b / ENTRIES && d == c / ENTRIES;
    assert v / 0x1_0000_0000_0000 == d / ENTRIES;
  }

  lemma HighBits(v: nat)
    requires Canonical(v)
    ensures v == v % 0x1_0000_0000_0000 + (if v % 0x1_0000_0000_0000 >= 0x8000_0000_0000 then 0xFFFF * 0x1_0000_0000_0000 else 0)
  {
    assert v / 0x8000_0000_0000 % 2 != 0 <==> v % 0x1_0000_0000_0000 >= 0x8000_0000_0000;
  }

  // ---- The tree --------------------------------------------------------------------------------

  /** The table entry at the end of a path of indices below `f`, if it is present. */
  function Read(tables: Tables, f: nat, path: seq<nat>): Option<Entry>
    decreases |path|
  {
    if f !in tables || path == [] || path[0] >= ENTRIES then None
    else
      var e := tables[f][path[0]];
      if |path| == 1 then if Present in e.flags then Some(e) else None
      else if IsTable(e) then Read(tables, e.frame, path[1..])
      else None
  }

  /** What a page is mapped to. */
  function Leaf(tables: Tables, root: nat, v: nat): Option<Entry> {
    if Canonical(v) then Read(tables, root, Indices(v)) else None
  }

  /** What can be done with a page beyond reading it for the kernel. */
  const ACCESS: set<Flag> := {Writable, User}

  /** What the entries on the way to the last level let through. */
  function Through(tables: Tables, f: nat, path: seq<nat>): set<Flag>
    decreases |path|
  {
    if |path| <= 1 then ACCESS
    else if f !in tables || path[0] >= ENTRIES || !IsTable(tables[f][path[0]]) then {}
    else tables[f][path[0]].flags * Through(tables, tables[f][path[0]].frame, path[1..])
  }

  /** What the processor lets be done with a page: what every entry of its walk allows. */
  function Access(tables: Tables, root: nat, v: nat): (rights: set<Flag>)
    ensures rights <= ACCESS
    ensures Leaf(tables, root, v).Some? ==> rights <= Leaf(tables, root, v).value.flags
  {
    if Leaf(tables, root, v).None? then {}
    else Through(tables, root, Indices(v)) * Leaf(tables, root, v).value.flags * ACCESS
  }

  /** What the walk to one page lets through once the entries on the way to another have gained rights. */
  function Opened(tables: Tables, f: nat, path: seq<nat>, walked: seq<nat>, more: set<Flag>): set<Flag>
    decreases |path|
  {
    if |path| <= 1 then ACCESS
    else if f !in tables || path[0] >= ENTRIES || !IsTable(tables[f][path[0]]) then {}
    else if |walked| != |path| || walked[0] != path[0] then
      tables[f][path[0]].flags * Through(tables, tables[f][path[0]].frame, path[1..])
    else (tables[f][path[0]].flags + more) * Opened(tables, tables[f][path[0]].frame, path[1..], walked[1..], more)
  }

  /** What can be done with the page of `w` once a walk to `v` has been made for these flags. */
  function Widened(tables: Tables, root: nat, w: nat, v: nat, flags: set<Flag>): set<Flag> {
    if Leaf(tables, root, w).None? then {}
    else Opened(tables, root, Indices(w), Indices(v), Shared(flags)) * Leaf(tables, root, w).value.flags * ACCESS
  }

  /** No walk holds back what the entry of its page allows. */
  ghost predicate Full(tables: Tables, root: nat) {
    forall w: nat :: Leaf(tables, root, w).Some? ==> Leaf(tables, root, w).value.flags * ACCESS <= Access(tables, root, w)
  }

  /** After a walk below `f`, every page there is open as the walk made it. */
  ghost predicate OpenedAll(before: Tables, after: Tables, f: nat, walked: seq<nat>, more: set<Flag>) {
    forall p :: |p| == |walked| && Read(before, f, p).Some? ==> Through(after, f, p) == Opened(before, f, p, walked, more)
  }

  /** Tables off this path are the same. */
  ghost predicate SameBeside(before: Tables, after: Tables, home: map<nat, seq<nat>>, path: seq<nat>) {
    forall x :: x in before && x in home && !(home[x] <= path) ==> x in after && after[x] == before[x]
  }

  ghost predicate ChildOk(tables: Tables, home: map<nat, seq<nat>>, f: nat, i: nat)
    requires f in tables && f in home && i < ENTRIES
  {
    var e := tables[f][i];
    |home[f]| < 3 && IsTable(e) ==> e.frame in tables && e.frame in home && home[e.frame] == home[f] + [i]
  }

  /** The entry of `g` at the end of `f`'s place points to `f`. */
  ghost predicate PointsTo(tables: Tables, home: map<nat, seq<nat>>, g: nat, f: nat)
    requires f in home && home[f] != []
  {
    var n := |home[f]| - 1;
    && g in tables && g in home && home[f][n] < ENTRIES && home[g] == home[f][..n]
    && IsTable(tables[g][home[f][n]]) && tables[g][home[f][n]].frame == f
  }

  ghost predicate Linked(tables: Tables, home: map<nat, seq<nat>>, f: nat)
    requires f in home
  {
    home[f] != [] ==> exists g :: PointsTo(tables, home, g, f)
  }

  /** Every table hangs in one place: no frame serves two paths. */
  ghost predicate TreeOk(tables: Tables, home: map<nat, seq<nat>>, root: nat) {
    && home.Keys == tables.Keys && root in home && home[root] == []
    && (forall f :: f in home ==> |home[f]| <= 3 && Linked(tables, home, f))
    && (forall f, i :: f in tables && 0 <= i < ENTRIES ==> ChildOk(tables, home, f, i))
    && (forall f, g :: f in home && g in home && home[f] == home[g] ==> f == g)
  }

  // ---- Changing one entry -----------------------------------------------------------------------

  ghost predicate AtLevel(home: map<nat, seq<nat>>, f: nat, path: seq<nat>) {
    f in home && |home[f]| + |path| == 4 && forall k :: 0 <= k < |path| ==> path[k] < ENTRIES
  }

  /** Giving an entry more flags, its table stays where it was. */
  lemma {:induction false} RaisedRead(tables: Tables, home: map<nat, seq<nat>>, root: nat, f: nat, i: nat, more: set<Flag>,
                                      g: nat, path: seq<nat>)
    requires TreeOk(tables, home, root) && f in tables && i < ENTRIES && |home[f]| < 3 && IsTable(tables[f][i]) && Huge !in more
    requires AtLevel(home, g, path)
    ensures Read(Raised(tables, f, i, more), g, path) == Read(tables, g, path)
    decreases |path|
  {
    hide Linked;
    var e := tables[g][path[0]];
    assert ChildOk(tables, home, g, path[0]);
    if |path| > 1 && IsTable(e) {
      RaisedRead(tables, home, root, f, i, more, e.frame, path[1..]);
    }
  }

  lemma {:induction false} RaisedMissing(tables: Tables, home: map<nat, seq<nat>>, root: nat, f: nat, i: nat, more: set<Flag>,
                                         g: nat, path: seq<nat>)
    requires TreeOk(tables, home, root) && f in tables && i < ENTRIES && |home[f]| < 3 && IsTable(tables[f][i]) && Huge !in more
    requires AtLevel(home, g, path)
    ensures Missing(Raised(tables, f, i, more), g, path) == Missing(tables, g, path)
    decreases |path|
  {
    hide Linked;
    var e := tables[g][path[0]];
    assert ChildOk(tables, home, g, path[0]);
    if |path| > 1 && IsTable(e) {
      RaisedMissing(tables, home, root, f, i, more, e.frame, path[1..]);
    }
  }

  function Raised(tables: Tables, f: nat, i: nat, more: set<Flag>): Tables
    requires f in tables && i < ENTRIES
  {
    var e := tables[f][i];
    tables[f := tables[f][i := Entry(e.frame, e.flags + more)]]
  }

  lemma RaisedOk(tables: Tables, home: map<nat, seq<nat>>, root: nat, f: nat, i: nat, more: set<Flag>)
    requires TreeOk(tables, home, root) && f in tables && i < ENTRIES && |home[f]| < 3 && IsTable(tables[f][i]) && Huge !in more
    ensures TreeOk(Raised(tables, f, i, more), home, root)
  {
    var after := Raised(tables, f, i, more);
    forall g, k | g in after && 0 <= k < ENTRIES
      ensures ChildOk(after, home, g, k)
    {
      assert ChildOk(tables, home, g, k);
    }
    forall g | g in home
      ensures Linked(after, home, g)
    {
      assert Linked(tables, home, g);
      if home[g] != [] {
        var h :| PointsTo(tables, home, h, g);
        assert PointsTo(after, home, h, g);
      }
    }
  }

  /** A blank table hung into an empty entry. */
  function Hung(tables: Tables, f: nat, i: nat, child: nat, flags: set<Flag>): Tables
    requires f in tables && i < ENTRIES
  {
    tables[f := tables[f][i := Entry(child, flags)]][child := Blank()]
  }

  lemma BlankReads(tables: Tables, f: nat, path: seq<nat>)
    requires f in tables && tables[f] == Blank()
    ensures Read(tables, f, path) == None
  {
  }

  lemma {:induction false} HungRead(tables: Tables, home: map<nat, seq<nat>>, root: nat, f: nat, i: nat, child: nat, flags: set<Flag>,
                                    g: nat, path: seq<nat>)
    requires TreeOk(tables, home, root) && f in tables && i < ENTRIES && |home[f]| < 3 && Present !in tables[f][i].flags
    requires child !in tables && AtLevel(home, g, path)
    ensures Read(Hung(tables, f, i, child, flags), g, path) == Read(tables, g, path)
    decreases |path|
  {
    hide Linked;
    var after := Hung(tables, f, i, child, flags);
    var e := tables[g][path[0]];
    assert ChildOk(tables, home, g, path[0]);
    if g == f && path[0] == i {
      BlankReads(after, child, path[1..]);
    } else if |path| > 1 && IsTable(e) {
      HungRead(tables, home, root, f, i, child, flags, e.frame, path[1..]);
    }
  }

  /** Nothing else claims the place of an entry that is not there. */
  lemma PlaceIsFree(tables: Tables, home: map<nat, seq<nat>>, root: nat, f: nat, i: nat, g: nat)
    requires TreeOk(tables, home, root) && f in tables && i < ENTRIES && Present !in tables[f][i].flags && g in home
    ensures home[g] != home[f] + [i]
  {
    assert Linked(tables, home, g);
    assert (home[f] + [i])[..|home[f]|] == home[f];
  }

  ghost predicate MayHang(tables: Tables, home: map<nat, seq<nat>>, root: nat, f: nat, i: nat, child: nat, flags: set<Flag>) {
    && TreeOk(tables, home, root) && f in tables && i < ENTRIES && |home[f]| < 3 && Present !in tables[f][i].flags
    && child !in tables && IsTable(Entry(child, flags))
  }

  lemma HungChild(tables: Tables, home: map<nat, seq<nat>>, root: nat, f: nat, i: nat, child: nat, flags: set<Flag>, g: nat, k: nat)
    requires MayHang(tables, home, root, f, i, child, flags) && g in Hung(tables, f, i, child, flags) && k < ENTRIES
    ensures ChildOk(Hung(tables, f, i, child, flags), home[child := home[f] + [i]], g, k)
  {
    hide Linked;
    assert g != child ==> ChildOk(tables, home, g, k);
  }

  lemma StillPoints(tables: Tables, home: map<nat, seq<nat>>, f: nat, i: nat, child: nat, flags: set<Flag>, h: nat, g: nat)
    requires f in tables && f in home && i < ENTRIES && Present !in tables[f][i].flags && child !in tables && child !in home
    requires g in home && home[g] != [] && PointsTo(tables, home, h, g)
    ensures PointsTo(Hung(tables, f, i, child, flags), home[child := home[f] + [i]], h, g)
  {
  }

  lemma HungLinked(tables: Tables, home: map<nat, seq<nat>>, root: nat, f: nat, i: nat, child: nat, flags: set<Flag>, g: nat)
    requires MayHang(tables, home, root, f, i, child, flags) && g in home[child := home[f] + [i]]
    ensures Linked(Hung(tables, f, i, child, flags), home[child := home[f] + [i]], g)
  {
    hide ChildOk;
    var after, home' := Hung(tables, f, i, child, flags), home[child := home[f] + [i]];
    if g == child {
      assert (home[f] + [i])[..|home[f]|] == home[f];
      assert PointsTo(after, home', f, child);
    } else {
      assert Linked(tables, home, g);
      if home[g] != [] {
        var h :| PointsTo(tables, home, h, g);
        StillPoints(tables, home, f, i, child, flags, h, g);
      }
    }
  }

  lemma HungOk(tables: Tables, home: map<nat, seq<nat>>, root: nat, f: nat, i: nat, child: nat, flags: set<Flag>)
    requires MayHang(tables, home, root, f, i, child, flags)
    ensures TreeOk(Hung(tables, f, i, child, flags), home[child := home[f] + [i]], root)
  {
    hide Linked, ChildOk;
    var after, home' := Hung(tables, f, i, child, flags), home[child := home[f] + [i]];
    forall g, k | g in after && 0 <= k < ENTRIES
      ensures ChildOk(after, home', g, k)
    {
      HungChild(tables, home, root, f, i, child, flags, g, k);
    }
    forall g | g in home'
      ensures Linked(after, home', g) && (g != child ==> home'[g] != home[f] + [i])
    {
      HungLinked(tables, home, root, f, i, child, flags, g);
      if g != child {
        PlaceIsFree(tables, home, root, f, i, g);
      }
    }
  }

  /** Writing a leaf. */
  function Written(tables: Tables, f: nat, i: nat, e: Entry): Tables
    requires f in tables && i < ENTRIES
  {
    tables[f := tables[f][i := e]]
  }

  lemma WrittenOk(tables: Tables, home: map<nat, seq<nat>>, root: nat, f: nat, i: nat, e: Entry)
    requires TreeOk(tables, home, root) && f in tables && i < ENTRIES && |home[f]| == 3
    ensures TreeOk(Written(tables, f, i, e), home, root)
  {
    var after := Written(tables, f, i, e);
    forall g, k | g in after && 0 <= k < ENTRIES
      ensures ChildOk(after, home, g, k)
    {
      assert ChildOk(tables, home, g, k);
    }
    forall g | g in home
      ensures Linked(after, home, g)
    {
      assert Linked(tables, home, g);
      if home[g] != [] {
        var h :| PointsTo(tables, home, h, g);
        assert PointsTo(after, home, h, g);
      }
    }
  }

  /** Only the page whose path ends in the written entry sees it. */
  lemma {:induction false} WrittenRead(tables: Tables, home: map<nat, seq<nat>>, root: nat, f: nat, i: nat, e: Entry,
                                       g: nat, path: seq<nat>)
    requires TreeOk(tables, home, root) && f in tables && i < ENTRIES && |home[f]| == 3 && AtLevel(home, g, path)
    ensures Read(Written(tables, f, i, e), g, path) ==
            if Reaches(tables, g, path, f) && path[|path| - 1] == i then (if Present in e.flags then Some(e) else None)
            else Read(tables, g, path)
    decreases |path|
  {
    hide Linked;
    var x := tables[g][path[0]];
    assert ChildOk(tables, home, g, path[0]);
    if |path| > 1 && IsTable(x) {
      WrittenRead(tables, home, root, f, i, e, x.frame, path[1..]);
    }
  }

  lemma {:induction false} WrittenThrough(tables: Tables, home: map<nat, seq<nat>>, root: nat, f: nat, i: nat, e: Entry,
                                          g: nat, path: seq<nat>)
    requires TreeOk(tables, home, root) && f in tables && i < ENTRIES && |home[f]| == 3 && AtLevel(home, g, path)
    ensures Through(Written(tables, f, i, e), g, path) == Through(tables, g, path)
    decreases |path|
  {
    hide Linked;
    var x := tables[g][path[0]];
    assert ChildOk(tables, home, g, path[0]);
    if |path| > 1 && IsTable(x) {
      WrittenThrough(tables, home, root, f, i, e, x.frame, path[1..]);
    }
  }

  /** The walk along a path gets to the last-level table `f`. */
  predicate Reaches(tables: Tables, g: nat, path: seq<nat>, f: nat)
    decreases |path|
  {
    if g !in tables || path == [] || path[0] >= ENTRIES then false
    else if |path| == 1 then g == f
    else IsTable(tables[g][path[0]]) && Reaches(tables, tables[g][path[0]].frame, path[1..], f)
  }

  lemma {:induction false} ReachesHome(tables: Tables, home: map<nat, seq<nat>>, root: nat, g: nat, path: seq<nat>, f: nat)
    requires TreeOk(tables, home, root) && AtLevel(home, g, path) && Reaches(tables, g, path, f)
    ensures f in home && home[f] == home[g] + path[..|path| - 1]
    decreases |path|
  {
    hide Linked;
    if |path| == 1 {
      assert path[..0] == [];
    } else {
      assert ChildOk(tables, home, g, path[0]);
      var x := tables[g][path[0]].frame;
      ReachesHome(tables, home, root, x, path[1..], f);
      assert home[x] + path[1..][..|path| - 2] == home[g] + path[..|path| - 1];
    }
  }

  /** Two pages share a leaf entry only if they are the same page. */
  lemma OnePagePerEntry(tables: Tables, home: map<nat, seq<nat>>, root: nat, v: nat, w: nat, f: nat)
    requires TreeOk(tables, home, root) && IsPage(v) && IsPage(w)
    requires Reaches(tables, root, Indices(v), f) && Reaches(tables, root, Indices(w), f) && Indices(v)[3] == Indices(w)[3]
    ensures v == w
  {
    hide TreeOk, Reaches, Indices;
    RootLevel(tables, home, root, v);
    RootLevel(tables, home, root, w);
    ReachesHome(tables, home, root, root, Indices(v), f);
    ReachesHome(tables, home, root, root, Indices(w), f);
    assert home[root] + Indices(v)[..3] == Indices(v)[..3] && home[root] + Indices(w)[..3] == Indices(w)[..3];
    assert Indices(v) == Indices(v)[..3] + [Indices(v)[3]] && Indices(w) == Indices(w)[..3] + [Indices(w)[3]];
    IndicesDetermine(v, w);
  }

  lemma RootLevel(tables: Tables, home: map<nat, seq<nat>>, root: nat, v: nat)
    requires TreeOk(tables, home, root)
    ensures AtLevel(home, root, Indices(v)) && home[root] == [] && root in tables
  {
  }

  // ---- The memory manager -----------------------------------------------------------------------

  /** How many tables a walk would have to create; none if a huge page is in the way. */
  function Missing(tables: Tables, f: nat, path: seq<nat>): Option<nat>
    decreases |path|
  {
    if f !in tables || path == [] || path[0] >= ENTRIES then None
    else if |path| == 1 then Some(0)
    else
      var e := tables[f][path[0]];
      if Present !in e.flags then Some(|path| - 1)
      else if Huge in e.flags then None
      else Missing(tables, e.frame, path[1..])
  }

  /** Same leaves everywhere. */
  ghost predicate SameLeaves(before: Tables, after: Tables, root: nat) {
    forall v: nat :: Leaf(after, root, v) == Leaf(before, root, v)
  }

  /** No page can be used for less than before. */
  ghost predicate NoNarrower(before: Tables, after: Tables, root: nat) {
    forall v: nat :: Access(before, root, v) <= Access(after, root, v)
  }

  /** Only the pages elsewhere count. */
  ghost predicate NoNarrowerElsewhere(before: Tables, after: Tables, root: nat, page: nat) {
    forall v: nat :: PageOf(v) != page ==> Access(before, root, v) <= Access(after, root, v)
  }

  /** No page can be both written and executed. */
  ghost predicate NoWritableCode(tables: Tables, root: nat) {
    forall v: nat :: Leaf(tables, root, v).Some? && Writable in Leaf(tables, root, v).value.flags ==>
      NoExecute in Leaf(tables, root, v).value.flags
  }

  lemma CanonicalExactly(v: nat)
    ensures Canonical(v) <==> v < 0x8000_0000_0000 || 0xFFFF_8000_0000_0000 <= v < 0x1_0000_0000_0000_0000
  {
    assert v / 0x1_0000_0000_0000 == v / 0x8000_0000_0000 / 2;
  }

  lemma KeptExactly(flags: set<Flag>)
    ensures {Present} + flags * KEPT == flags + {Present} - {Huge}
  {
    forall f: Flag
      ensures f in {Present} + flags * KEPT <==> f in flags + {Present} - {Huge}
    {
      match f {
        case Present =>
        case Writable =>
        case User =>
        case WriteThrough =>
        case CacheDisable =>
        case Huge =>
        case NoExecute =>
      }
    }
  }

  predicate MapArguments(v: nat, physical: nat, flags: set<Flag>) {
    IsPage(v) && physical % PAGE == 0 && physical < PHYSICAL_MAX && (Writable in flags ==> NoExecute in flags)
  }

  class MemoryManager {
    const root: nat
    const allocator: FrameAllocator
    var tables: Tables
    /** Where in the tree each table hangs. */
    ghost var home: map<nat, seq<nat>>

    ghost predicate Valid()
      reads this, allocator
    {
      && allocator.Valid() && TreeOk(tables, home, root)
      && forall f :: f in tables && f < FRAME_MAX ==> allocator.used[f]
    }

    /** Takes over the tree the boot loader left. */
    constructor (root: nat, tables: Tables, allocator: FrameAllocator, ghost home: map<nat, seq<nat>>)
      requires allocator.Valid() && TreeOk(tables, home, root)
      requires forall f :: f in tables && f < FRAME_MAX ==> allocator.used[f]
      ensures Valid() && this.root == root && this.tables == tables && this.allocator == allocator
    {
      this.root, this.tables, this.allocator, this.home := root, tables, allocator, home;
    }

    /** Gives an entry more rights. */
    method Raise(f: nat, i: nat, more: set<Flag>)
      requires Valid() && f in tables && |home[f]| < 3 && i < ENTRIES && IsTable(tables[f][i]) && Huge !in more
      modifies this`tables
      ensures Valid() && tables == Raised(old(tables), f, i, more)
      ensures forall g, path :: AtLevel(home, g, path) ==>
                && Read(tables, g, path) == Read(old(tables), g, path)
                && Missing(tables, g, path) == Missing(old(tables), g, path)
    {
      hide TreeOk, FreeIn, Read, Missing;
      RaisedOk(tables, home, root, f, i, more);
      forall g, path | AtLevel(home, g, path)
        ensures Read(Raised(tables, f, i, more), g, path) == Read(tables, g, path)
        ensures Missing(Raised(tables, f, i, more), g, path) == Missing(tables, g, path)
      {
        RaisedRead(tables, home, root, f, i, more, g, path);
        RaisedMissing(tables, home, root, f, i, more, g, path);
      }
      tables := Raised(tables, f, i, more);
    }

    /** Puts a new empty table in a frame just taken under an empty entry. */
    method Hang(f: nat, i: nat, frame: nat, shared: set<Flag>)
      requires Valid() && MayHang(tables, home, root, f, i, frame, shared) && (frame < FRAME_MAX ==> allocator.used[frame])
      modifies this`tables, this`home
      ensures Valid() && tables == Hung(old(tables), f, i, frame, shared) && home == old(home)[frame := old(home)[f] + [i]]
      ensures forall g, path :: AtLevel(old(home), g, path) ==> AtLevel(home, g, path) && Read(tables, g, path) == Read(old(tables), g, path)
    {
      hide FreeIn, Read, Linked, ChildOk;
      HungOk(tables, home, root, f, i, frame, shared);
      forall g, path | AtLevel(home, g, path)
        ensures frame != g && Read(Hung(tables, f, i, frame, shared), g, path) == Read(tables, g, path)
      {
        HungRead(tables, home, root, f, i, frame, shared, g, path);
      }
      ghost var place := home[f] + [i];
      tables := Hung(tables, f, i, frame, shared);
      home := home[frame := place];
    }

    /** Follows an entry to its table, creating the table if the entry is empty. */
    method GetOrCreate(f: nat, i: nat, flags: set<Flag>) returns (child: Option<nat>)
      requires Valid() && f in tables && |home[f]| < 3 && i < ENTRIES
      modifies this`tables, this`home, allocator
      ensures Valid() && (forall g :: g in old(home) ==> g in home && home[g] == old(home)[g])
      ensures forall g :: g in old(tables) && g != f ==> g in tables && tables[g] == old(tables)[g]
      ensures child.Some? ==> IsTable(tables[f][i]) && tables[f][i].frame == child.value && child.value in tables
                              && child.value in home && home[child.value] == home[f] + [i] && Shared(flags) <= tables[f][i].flags
      ensures forall g, path :: AtLevel(old(home), g, path) ==> AtLevel(home, g, path) && Read(tables, g, path) == Read(old(tables), g, path)
      ensures tables == if child.None? then old(tables)
                        else if Present in old(tables)[f][i].flags then Raised(old(tables), f, i, Shared(flags))
                        else Hung(old(tables), f, i, child.value, Shared(flags))
      ensures child.None? <==>
              if Present in old(tables)[f][i].flags then Huge in old(tables)[f][i].flags else old(allocator.freeCount) == 0
      ensures child.Some? && Present in old(tables)[f][i].flags ==>
                child.value == old(tables)[f][i].frame && allocator.freeCount == old(allocator.freeCount)
                && forall path :: AtLevel(home, child.value, path) ==>
                     Missing(tables, child.value, path) == Missing(old(tables), child.value, path)
      ensures child.Some? && Present !in old(tables)[f][i].flags ==>
                tables[child.value] == Blank() && child.value !in old(tables) && allocator.freeCount == old(allocator.freeCount) - 1
    {
      hide Linked, Reaches, FreeIn, Read, Missing;
      var e := tables[f][i];
      var shared := Shared(flags);
      if Present in e.flags {
        if Huge in e.flags {
          return None;
        }
        assert ChildOk(tables, home, f, i);
        Raise(f, i, shared);
        return Some(e.frame);
      }
      var frame := allocator.Allocate();
      if frame == 0 {
        return None;
      }
      Hang(f, i, frame, shared);
      return Some(frame);
    }

    /** The last-level table for a path, creating what is missing on the way. */
    method FindOrCreate(f: nat, path: seq<nat>, flags: set<Flag>) returns (leaf: Option<nat>)
      requires Valid() && AtLevel(home, f, path) && path != []
      modifies this`tables, this`home, allocator
      ensures Valid() && (forall g :: g in old(home) ==> g in home && home[g] == old(home)[g])
      ensures forall g :: g in old(tables) && |old(home)[g]| < |old(home)[f]| ==> g in tables && tables[g] == old(tables)[g]
      ensures forall g, p :: AtLevel(old(home), g, p) ==> AtLevel(home, g, p) && Read(tables, g, p) == Read(old(tables), g, p)
      ensures SameBeside(old(tables), tables, old(home), old(home)[f] + path)
      ensures OpenedAll(old(tables), tables, f, path, Shared(flags))
      ensures leaf.Some? ==> Shared(flags) * ACCESS <= Through(tables, f, path)
      ensures leaf.Some? <==>
              var missing := Missing(old(tables), f, path); missing.Some? && missing.value <= old(allocator.freeCount)
      ensures leaf.Some? ==> Reaches(tables, f, path, leaf.value) && leaf.value in home && |home[leaf.value]| == 3
      decreases |path|
    {
      hide Linked, ChildOk, FreeIn, TreeOk, Read, Missing, Reaches, Through, Opened, OpenedAll, SameBeside, Hung, Raised, Shared;
      ghost var before, homes, shared := tables, home, Shared(flags);
      TreeKeys(tables, home, root, f);
      WalkStep(tables, f, path);
      if |path| == 1 {
        LastStep(tables, f, path);
        ThroughStep(tables, f, path);
        LastOpened(tables, f, path, shared);
        BesideSelf(tables, home, home[f] + path);
        return Some(f);
      }
      var child := GetOrCreate(f, path[0], flags);
      if child.None? {
        NotOpened(before, homes, root, f, path, shared);
        BesideSelf(before, homes, homes[f] + path);
        return None;
      }
      ghost var middle, homes' := tables, home;
      TreeKeys(tables, home, root, f);
      assert AtLevel(home, child.value, path[1..]);
      BlankMissing(tables, child.value, path[1..]);
      leaf := FindOrCreate(child.value, path[1..], flags);
      assert tables[f] == middle[f];
      BesideJoin(before, homes, middle, homes', tables, f, path, child.value);
      OpenedBelow(before, homes, root, f, path, shared, middle, child.value, tables);
      if leaf.Some? {
        ReachStep(tables, f, path, leaf.value);
        ThroughStep(tables, f, path);
      }
    }

    /**
     * Binds one page, with exactly the access asked for; on failure no translation changes,
     * whatever tables were created. Entries on the way gain rights, also on failure, which may
     * widen what can be done with pages already there; where no walk held anything back, it
     * does not.
     */
    method Map(v: nat, physical: nat, flags: set<Flag>) returns (ok: bool)
      requires Valid()
      modifies this`tables, this`home, allocator
      ensures Valid()
      ensures ok <==>
              && v % 4096 == 0 && (v < 0x8000_0000_0000 || 0xFFFF_8000_0000_0000 <= v < 0x1_0000_0000_0000_0000)
              && physical % 4096 == 0 && physical < 0x10_0000_0000_0000 && (Writable in flags ==> NoExecute in flags)
              && Leaf(old(tables), root, v).None?
              && var missing := Missing(old(tables), root, Indices(v)); missing.Some? && missing.value <= old(allocator.freeCount)
      ensures !ok ==> SameLeaves(old(tables), tables, root)
      ensures ok ==> Rebound(old(tables), tables, root, v, Some(Entry(physical / 4096, flags + {Present} - {Huge})))
      ensures ok ==> Access(tables, root, v) == flags * ACCESS && NoNarrowerElsewhere(old(tables), tables, root, v)
      ensures !ok ==> NoNarrower(old(tables), tables, root) && (!MapArguments(v, physical, flags) ==> tables == old(tables))
      ensures MapArguments(v, physical, flags) ==>
                forall w: nat :: Leaf(old(tables), root, w).Some? ==> Access(tables, root, w) == Widened(old(tables), root, w, v, flags)
      ensures MapArguments(v, physical, flags) && Leaf(old(tables), root, v).Some? ==>
                Access(tables, root, v)
                == Access(old(tables), root, v) + Shared(flags) * Leaf(old(tables), root, v).value.flags * ACCESS
      ensures Full(old(tables), root) ==>
                && Full(tables, root)
                && forall w: nat :: Leaf(old(tables), root, w).Some? ==> Access(tables, root, w) == Access(old(tables), root, w)
      ensures NoWritableCode(old(tables), root) ==> NoWritableCode(tables, root)
    {
      hide Read, Missing, Indices, Reaches, TreeOk, FreeIn, Through, Opened, Access, Leaf, Widened, Full;
      CanonicalExactly(v);
      KeptExactly(flags);
      if v % PAGE != 0 || physical % PAGE != 0 || physical >= PHYSICAL_MAX || (Writable in flags && NoExecute !in flags) {
        return false;
      }
      if !Canonical(v) {
        return false;
      }
      RootLevel(tables, home, root, v);
      var leaf := FindOrCreate(root, Indices(v), flags);
      SameReads(old(tables), old(home), tables, root);
      Walked(old(tables), old(home), tables, root, v, flags);
      if leaf.None? {
        return false;
      }
      LeafTable(tables, home, root, v, leaf.value);
      if Present in tables[leaf.value][Indices(v)[3]].flags {
        return false;
      }
      Bind(v, leaf.value, Entry(physical / PAGE, {Present} + flags * KEPT));
      AskedAccess(flags, Through(tables, root, Indices(v)));
      BoundFull(old(tables), tables, root, v, flags, physical);
      return true;
    }

    /** Writes the leaf of a page. */
    method Bind(v: nat, f: nat, e: Entry)
      requires Valid() && IsPage(v) && Reaches(tables, root, Indices(v), f) && Present in e.flags
      modifies this`tables
      ensures Valid() && Rebound(old(tables), tables, root, v, Some(e))
      ensures Through(tables, root, Indices(v)) == Through(old(tables), root, Indices(v))
      ensures Access(tables, root, v) == Through(tables, root, Indices(v)) * e.flags * ACCESS
      ensures forall w: nat :: PageOf(w) != v ==> Access(tables, root, w) == Access(old(tables), root, w)
    {
      hide Read, Missing, Indices, Reaches, TreeOk, FreeIn, Through, Access;
      var i := Indices(v)[3];
      LeafTable(tables, home, root, v, f);
      RootLevel(tables, home, root, v);
      WrittenOk(tables, home, root, f, i, e);
      WriteRebinds(tables, home, root, v, f, e);
      WriteKeepsAccess(tables, home, root, v, f, e);
      WrittenThrough(tables, home, root, f, i, e, root, Indices(v));
      tables := Written(tables, f, i, e);
    }

    /** The physical address behind a virtual one, or 0. */
    method Translate(v: nat) returns (physical: nat)
      requires Valid()
      ensures physical == if Leaf(tables, root, v).Some? then Leaf(tables, root, v).value.frame * PAGE + v % PAGE else 0
    {
      hide Missing, Indices, TreeOk, FreeIn;
      if !Canonical(v) {
        return 0;
      }
      var f := FindLeaf(tables, root, Indices(v));
      FindLeafReads(tables, root, Indices(v));
      if f.None? || Present !in tables[f.value][Indices(v)[3]].flags {
        return 0;
      }
      return tables[f.value][Indices(v)[3]].frame * PAGE + v % PAGE;
    }

    /** Removes one binding and gives its frame back, or changes nothing. */
    method Unmap(v: nat) returns (physical: nat)
      requires Valid()
      modifies this`tables
      ensures Valid()
      ensures v % PAGE == 0 && Leaf(old(tables), root, v).Some? ==>
                physical == Leaf(old(tables), root, v).value.frame * PAGE && Rebound(old(tables), tables, root, v, None)
                && forall w: nat :: PageOf(w) != v ==> Access(tables, root, w) == Access(old(tables), root, w)
      ensures Full(old(tables), root) ==> Full(tables, root)
      ensures NoWritableCode(old(tables), root) ==> NoWritableCode(tables, root)
      ensures v % PAGE != 0 || Leaf(old(tables), root, v).None? ==> physical == 0 && tables == old(tables)
    {
      hide Read, Missing, Indices, Reaches, TreeOk, FreeIn, FindLeaf, Through;
      if v % PAGE != 0 || !Canonical(v) {
        return 0;
      }
      var f := FindLeaf(tables, root, Indices(v));
      FindLeafReads(tables, root, Indices(v));
      var i := Indices(v)[3];
      if f.None? || Present !in tables[f.value][i].flags {
        return 0;
      }
      physical := tables[f.value][i].frame * PAGE;
      LeafTable(tables, home, root, v, f.value);
      WrittenOk(tables, home, root, f.value, i, EMPTY);
      WriteRebinds(tables, home, root, v, f.value, EMPTY);
      WriteKeepsAccess(tables, home, root, v, f.value, EMPTY);
      tables := Written(tables, f.value, i, EMPTY);
    }
  }

  lemma TreeKeys(tables: Tables, home: map<nat, seq<nat>>, root: nat, f: nat)
    requires TreeOk(tables, home, root) && f in home
    ensures home.Keys == tables.Keys && f in tables && |home[f]| <= 3
  {
  }

  lemma WalkStep(tables: Tables, f: nat, path: seq<nat>)
    requires f in tables && path != [] && path[0] < ENTRIES
    ensures Missing(tables, f, path) ==
            if |path| == 1 then Some(0)
            else if Present !in tables[f][path[0]].flags then Some(|path| - 1)
            else if Huge in tables[f][path[0]].flags then None
            else Missing(tables, tables[f][path[0]].frame, path[1..])
  {
  }

  lemma LastStep(tables: Tables, f: nat, path: seq<nat>)
    requires f in tables && |path| == 1 && path[0] < ENTRIES
    ensures Reaches(tables, f, path, f)
  {
  }

  lemma ReachStep(tables: Tables, f: nat, path: seq<nat>, leaf: nat)
    requires f in tables && |path| > 1 && path[0] < ENTRIES && IsTable(tables[f][path[0]])
    requires Reaches(tables, tables[f][path[0]].frame, path[1..], leaf)
    ensures Reaches(tables, f, path, leaf)
  {
  }

  /** A walk that lets through what was asked for grants exactly that. */
  lemma AskedAccess(flags: set<Flag>, through: set<Flag>)
    requires Shared(flags) * ACCESS <= through
    ensures through * ({Present} + flags * KEPT) * ACCESS == flags * ACCESS
  {
    assert flags * ACCESS <= Shared(flags);
  }

  lemma ThroughStep(tables: Tables, f: nat, path: seq<nat>)
    requires f in tables && path != [] && path[0] < ENTRIES
    ensures |path| == 1 ==> Through(tables, f, path) == ACCESS
    ensures |path| > 1 && IsTable(tables[f][path[0]]) ==>
              Through(tables, f, path) == tables[f][path[0]].flags * Through(tables, tables[f][path[0]].frame, path[1..])
  {
  }

  /** Below a new table everything is missing. */
  lemma BlankMissing(tables: Tables, f: nat, path: seq<nat>)
    requires f in tables && path != [] && path[0] < ENTRIES
    ensures tables[f] == Blank() ==> Missing(tables, f, path) == Some(|path| - 1)
  {
  }

  // ---- What a walk opens -----------------------------------------------------------------------

  lemma {:induction false} OpenedWider(tables: Tables, f: nat, path: seq<nat>, walked: seq<nat>, more: set<Flag>)
    ensures Through(tables, f, path) <= Opened(tables, f, path, walked, more) <= ACCESS
    decreases |path|
  {
    if |path| > 1 && f in tables && path[0] < ENTRIES && IsTable(tables[f][path[0]]) {
      var child, rest := tables[f][path[0]].frame, if |walked| == |path| then walked[1..] else walked;
      OpenedWider(tables, child, path[1..], rest, more);
    }
  }

  /** The walk to a page opens its own way for exactly what it asks. */
  lemma {:induction false} OpenedSelf(tables: Tables, f: nat, path: seq<nat>, more: set<Flag>)
    requires Read(tables, f, path).Some?
    ensures Opened(tables, f, path, path, more) == Through(tables, f, path) + more * ACCESS
    decreases |path|
  {
    if |path| > 1 {
      OpenedSelf(tables, tables[f][path[0]].frame, path[1..], more);
      OpenedWider(tables, tables[f][path[0]].frame, path[1..], path[1..], more);
    }
  }

  /** The tables below one are the same. */
  ghost predicate SameBelow(before: Tables, after: Tables, home: map<nat, seq<nat>>, g: nat) {
    && home.Keys == before.Keys && g in home
    && forall x :: x in before && home[g] <= home[x] ==> x in after && after[x] == before[x]
  }

  lemma ChildBelow(before: Tables, after: Tables, home: map<nat, seq<nat>>, root: nat, g: nat, path: seq<nat>)
    requires TreeOk(before, home, root) && AtLevel(home, g, path) && SameBelow(before, after, home, g) && |path| > 1
    ensures g in before && g in after && after[g] == before[g]
    ensures IsTable(before[g][path[0]]) ==>
              AtLevel(home, before[g][path[0]].frame, path[1..]) && SameBelow(before, after, home, before[g][path[0]].frame)
  {
    hide Linked;
    assert ChildOk(before, home, g, path[0]);
  }

  lemma {:induction false} SameThrough(before: Tables, after: Tables, home: map<nat, seq<nat>>, root: nat,
                                       g: nat, path: seq<nat>, walked: seq<nat>, more: set<Flag>)
    requires TreeOk(before, home, root) && AtLevel(home, g, path) && SameBelow(before, after, home, g)
    ensures Through(after, g, path) == Through(before, g, path)
    ensures Opened(after, g, path, walked, more) == Opened(before, g, path, walked, more)
    ensures Read(after, g, path) == Read(before, g, path)
    decreases |path|
  {
    hide TreeOk, AtLevel;
    if |path| > 1 {
      ChildBelow(before, after, home, root, g, path);
      if path[0] < ENTRIES && IsTable(before[g][path[0]]) {
        var rest := if |walked| == |path| then walked[1..] else walked;
        SameThrough(before, after, home, root, before[g][path[0]].frame, path[1..], rest, more);
      }
    }
  }

  /** One level of a walk. */
  lemma OpenedStep(tables: Tables, f: nat, path: seq<nat>, walked: seq<nat>, more: set<Flag>)
    requires f in tables && |path| == |walked| > 1 && path[0] < ENTRIES && IsTable(tables[f][path[0]])
    ensures var child := tables[f][path[0]].frame;
            && Read(tables, f, path) == Read(tables, child, path[1..])
            && Opened(tables, f, path, walked, more)
               == if walked[0] == path[0] then (tables[f][path[0]].flags + more) * Opened(tables, child, path[1..], walked[1..], more)
                  else tables[f][path[0]].flags * Through(tables, child, path[1..])
  {
  }

  lemma ReadTable(tables: Tables, f: nat, path: seq<nat>)
    requires Read(tables, f, path).Some? && |path| > 1
    ensures f in tables && path[0] < ENTRIES && IsTable(tables[f][path[0]])
  {
  }

  lemma ChildLevel(tables: Tables, home: map<nat, seq<nat>>, root: nat, f: nat, path: seq<nat>)
    requires TreeOk(tables, home, root) && AtLevel(home, f, path) && |path| > 1 && f in tables && IsTable(tables[f][path[0]])
    ensures AtLevel(home, tables[f][path[0]].frame, path[1..]) && |home[f]| < 3
  {
    hide Linked;
    assert ChildOk(tables, home, f, path[0]);
  }

  lemma BesideSelf(tables: Tables, home: map<nat, seq<nat>>, path: seq<nat>)
    ensures SameBeside(tables, tables, home, path)
  {
  }

  lemma BesideJoin(before: Tables, home: map<nat, seq<nat>>, middle: Tables, home': map<nat, seq<nat>>, after: Tables,
                   f: nat, path: seq<nat>, child: nat)
    requires f in home && path != [] && child in home' && home'[child] == home[f] + [path[0]]
    requires forall g :: g in home ==> g in home' && home'[g] == home[g]
    requires forall g :: g in before && g != f ==> g in middle && middle[g] == before[g]
    requires SameBeside(middle, after, home', home'[child] + path[1..])
    ensures SameBeside(before, after, home, home[f] + path)
  {
    assert home'[child] + path[1..] == home[f] + path;
  }

  lemma LastOpened(tables: Tables, f: nat, path: seq<nat>, more: set<Flag>)
    requires |path| == 1
    ensures OpenedAll(tables, tables, f, path, more)
  {
  }

  /** A walk that gets no further opens nothing that is used. */
  lemma NotOpened(tables: Tables, home: map<nat, seq<nat>>, root: nat, f: nat, path: seq<nat>, more: set<Flag>)
    requires f in tables && |path| > 1 && path[0] < ENTRIES && !IsTable(tables[f][path[0]])
    ensures OpenedAll(tables, tables, f, path, more)
  {
  }

  /** Off the walk nothing below a neighbouring entry changes. */
  lemma NeighbourBelow(before: Tables, home: map<nat, seq<nat>>, root: nat, f: nat, path: seq<nat>, after: Tables, i: nat)
    requires TreeOk(before, home, root) && f in before && |path| > 1 && AtLevel(home, f, path)
    requires i < ENTRIES && i != path[0] && IsTable(before[f][i])
    requires SameBeside(before, after, home, home[f] + path)
    ensures SameBelow(before, after, home, before[f][i].frame) && home[before[f][i].frame] == home[f] + [i]
  {
    hide Linked;
    assert ChildOk(before, home, f, i);
    forall x | x in before && home[f] + [i] <= home[x]
      ensures !(home[x] <= home[f] + path)
    {
      assert home[x][|home[f]|] == (home[f] + [i])[|home[f]|] == i && (home[f] + path)[|home[f]|] == path[0];
    }
  }

  lemma OpenedBeside(before: Tables, home: map<nat, seq<nat>>, root: nat, f: nat, path: seq<nat>, more: set<Flag>,
                     after: Tables, p: seq<nat>)
    requires TreeOk(before, home, root) && f in before && |path| > 1 && AtLevel(home, f, path) && AtLevel(home, f, p)
    requires Read(before, f, p).Some? && f in after && p[0] != path[0] && after[f][p[0]] == before[f][p[0]]
    requires SameBeside(before, after, home, home[f] + path)
    ensures Through(after, f, p) == Opened(before, f, p, path, more)
  {
    hide TreeOk, SameBelow, AtLevel, Read, Through, Opened;
    SameLength(home, f, path, p);
    ReadTable(before, f, p);
    NeighbourBelow(before, home, root, f, path, after, p[0]);
    ChildLevel(before, home, root, f, p);
    SameThrough(before, after, home, root, before[f][p[0]].frame, p[1..], path, more);
    OpenedStep(before, f, p, path, more);
    ThroughStep(after, f, p);
  }

  lemma SameLength(home: map<nat, seq<nat>>, f: nat, path: seq<nat>, p: seq<nat>)
    requires AtLevel(home, f, path) && AtLevel(home, f, p)
    ensures |p| == |path|
  {
  }

  /** The entry on the way gains the rights. */
  lemma OpenedAlong(before: Tables, home: map<nat, seq<nat>>, root: nat, f: nat, path: seq<nat>, more: set<Flag>,
                    middle: Tables, after: Tables, p: seq<nat>)
    requires TreeOk(before, home, root) && f in before && |path| > 1 && AtLevel(home, f, path) && AtLevel(home, f, p)
    requires Read(before, f, p).Some? && p[0] == path[0] && Huge !in more
    requires middle == Raised(before, f, path[0], more) && f in after && after[f] == middle[f]
    requires Read(middle, before[f][p[0]].frame, p[1..]).Some? ==>
               Through(after, before[f][p[0]].frame, p[1..]) == Opened(middle, before[f][p[0]].frame, p[1..], path[1..], more)
    ensures Through(after, f, p) == Opened(before, f, p, path, more)
  {
    hide TreeOk, SameBelow, AtLevel, Read, Through, Opened;
    SameLength(home, f, path, p);
    ReadTable(before, f, p);
    ChildLevel(before, home, root, f, p);
    RaisedBelow(before, home, root, f, path[0], more);
    SameThrough(before, middle, home, root, before[f][p[0]].frame, p[1..], path[1..], more);
    OpenedStep(before, f, p, path, more);
    ThroughStep(after, f, p);
  }

  lemma RaisedBelow(before: Tables, home: map<nat, seq<nat>>, root: nat, f: nat, i: nat, more: set<Flag>)
    requires TreeOk(before, home, root) && f in before && i < ENTRIES && |home[f]| < 3 && IsTable(before[f][i])
    ensures SameBelow(before, Raised(before, f, i, more), home, before[f][i].frame) && home[before[f][i].frame] == home[f] + [i]
  {
    hide Linked;
    assert ChildOk(before, home, f, i);
  }

  lemma ChangedHere(before: Tables, f: nat, i: nat, more: set<Flag>, middle: Tables, child: nat)
    requires f in before && i < ENTRIES
    requires middle == if Present in before[f][i].flags then Raised(before, f, i, more) else Hung(before, f, i, child, more)
    requires Present !in before[f][i].flags ==> child !in before
    ensures f in middle && forall k :: 0 <= k < ENTRIES && k != i ==> middle[f][k] == before[f][k]
  {
  }

  lemma {:induction false} ReadInRange(tables: Tables, home: map<nat, seq<nat>>, f: nat, path: seq<nat>, p: seq<nat>)
    requires AtLevel(home, f, path) && |p| == |path|
    requires forall k :: 0 <= k < |p| ==> p[k] < ENTRIES
    ensures AtLevel(home, f, p)
  {
  }

  lemma {:induction false} ReadIndices(tables: Tables, f: nat, p: seq<nat>, k: nat)
    requires Read(tables, f, p).Some? && k < |p|
    ensures p[k] < ENTRIES
    decreases |p|
  {
    if k > 0 {
      ReadIndices(tables, tables[f][p[0]].frame, p[1..], k - 1);
    }
  }

  lemma OpenedBelow(before: Tables, home: map<nat, seq<nat>>, root: nat, f: nat, path: seq<nat>, more: set<Flag>,
                    middle: Tables, child: nat, after: Tables)
    requires TreeOk(before, home, root) && f in before && |path| > 1 && AtLevel(home, f, path) && Huge !in more
    requires f in middle && f in after && after[f] == middle[f]
    requires Present in before[f][path[0]].flags ==> IsTable(before[f][path[0]]) && child == before[f][path[0]].frame
    requires Present !in before[f][path[0]].flags ==> child !in before
    requires middle == if Present in before[f][path[0]].flags then Raised(before, f, path[0], more)
                       else Hung(before, f, path[0], child, more)
    requires SameBeside(before, after, home, home[f] + path) && OpenedAll(middle, after, child, path[1..], more)
    ensures OpenedAll(before, after, f, path, more)
  {
    hide TreeOk, Read, Through, Opened, Raised, Hung, SameBeside;
    ChangedHere(before, f, path[0], more, middle, child);
    forall p | |p| == |path| && Read(before, f, p).Some?
      ensures Through(after, f, p) == Opened(before, f, p, path, more)
    {
      ReadTable(before, f, p);
      forall k | 0 <= k < |p|
        ensures p[k] < ENTRIES
      {
        ReadIndices(before, f, p, k);
      }
      ReadInRange(before, home, f, path, p);
      if p[0] == path[0] {
        OpenedAlong(before, home, root, f, path, more, middle, after, p);
      } else {
        OpenedBeside(before, home, root, f, path, more, after, p);
      }
    }
  }

  /** What a walk to `v` does to every page already there. */
  lemma Walked(before: Tables, home: map<nat, seq<nat>>, after: Tables, root: nat, v: nat, flags: set<Flag>)
    requires TreeOk(before, home, root) && SameLeaves(before, after, root) && Canonical(v)
    requires OpenedAll(before, after, root, Indices(v), Shared(flags))
    ensures forall w: nat :: Leaf(before, root, w).Some? ==> Access(after, root, w) == Widened(before, root, w, v, flags)
    ensures NoNarrower(before, after, root)
    ensures Leaf(before, root, v).Some? ==>
              Access(after, root, v) == Access(before, root, v) + Shared(flags) * Leaf(before, root, v).value.flags * ACCESS
    ensures Full(before, root) ==>
              && Full(after, root)
              && forall w: nat :: Leaf(before, root, w).Some? ==> Access(after, root, w) == Access(before, root, w)
  {
    hide TreeOk, Read, Indices, Through, Opened, Shared;
    forall w: nat
      ensures Leaf(before, root, w).Some? ==> Access(after, root, w) == Widened(before, root, w, v, flags)
      ensures Access(before, root, w) <= Access(after, root, w)
    {
      RootLevel(before, home, root, w);
      OpenedWider(before, root, Indices(w), Indices(v), Shared(flags));
    }
    if Leaf(before, root, v).Some? {
      OpenedSelf(before, root, Indices(v), Shared(flags));
    }
  }

  /** Binding one more page with all it asks for leaves no walk holding anything back. */
  lemma BoundFull(before: Tables, after: Tables, root: nat, v: nat, flags: set<Flag>, physical: nat)
    requires Rebound(before, after, root, v, Some(Entry(physical / PAGE, {Present} + flags * KEPT))) && IsPage(v)
    requires Leaf(before, root, v).None? && Access(after, root, v) == flags * ACCESS
    requires Full(before, root) ==>
               forall w: nat :: PageOf(w) != v && Leaf(before, root, w).Some? ==> Access(after, root, w) == Access(before, root, w)
    ensures forall w: nat :: Leaf(before, root, w).Some? ==> PageOf(w) != v
    ensures Full(before, root) ==> Full(after, root)
  {
    hide Access, Leaf;
    forall w: nat
      ensures Canonical(w) ==> Leaf(before, root, w) == Leaf(before, root, PageOf(w)) && Access(after, root, w) == Access(after, root, PageOf(w))
      ensures Leaf(before, root, w).Some? ==> Canonical(w)
    {
      AllOfPage(before, root, w);
      AllOfPage(after, root, w);
    }
  }

  lemma AllOfPage(tables: Tables, root: nat, w: nat)
    ensures Leaf(tables, root, w).Some? ==> Canonical(w)
    ensures Canonical(w) ==>
              Leaf(tables, root, w) == Leaf(tables, root, PageOf(w)) && Access(tables, root, w) == Access(tables, root, PageOf(w))
  {
    hide Read, Indices, Through;
    if Canonical(w) {
      PageIndices(w);
    }
  }

  /** Exactly where no walk holds anything back can no walk widen anything. */
  lemma FullExactly(tables: Tables, root: nat)
    ensures Full(tables, root) <==>
            forall w: nat, v: nat, flags :: IsPage(v) && (Writable in flags ==> NoExecute in flags) ==>
              Widened(tables, root, w, v, flags) == Access(tables, root, w)
  {
    hide Read, Indices, Through, Opened;
    if Full(tables, root) {
      forall w: nat, v: nat, flags | IsPage(v)
        ensures Widened(tables, root, w, v, flags) == Access(tables, root, w)
      {
        OpenedWider(tables, root, Indices(w), Indices(v), Shared(flags));
      }
    } else {
      var w: nat :| Leaf(tables, root, w).Some? && !(Leaf(tables, root, w).value.flags * ACCESS <= Access(tables, root, w));
      var all := {User, Writable, NoExecute};
      PageIndices(w);
      OpenedSelf(tables, root, Indices(w), Shared(all));
      assert Widened(tables, root, w, PageOf(w), all) != Access(tables, root, w);
    }
  }

  /** The page an address lies in. */
  function PageOf(v: nat): nat {
    v - v % PAGE
  }

  lemma Quotients(v: nat)
    ensures v / 0x20_0000 == v / PAGE / 0x200 && v / 0x4000_0000 == v / PAGE / 0x4_0000
    ensures v / 0x80_0000_0000 == v / PAGE / 0x800_0000 && v / 0x8000_0000_0000 == v / PAGE / 0x8_0000_0000
    ensures v / 0x1_0000_0000_0000 == v / PAGE / 0x10_0000_0000
  {
  }

  lemma PageIndices(v: nat)
    requires Canonical(v)
    ensures IsPage(PageOf(v)) && Indices(PageOf(v)) == Indices(v)
  {
    assert PageOf(v) / PAGE == v / PAGE;
    Quotients(v);
    Quotients(PageOf(v));
  }

  /** Exactly the addresses of one page are bound anew. */
  ghost predicate Rebound(before: Tables, after: Tables, root: nat, page: nat, e: Option<Entry>) {
    forall v: nat :: Leaf(after, root, v) == if Canonical(v) && PageOf(v) == page then e else Leaf(before, root, v)
  }

  lemma SameReads(before: Tables, home: map<nat, seq<nat>>, after: Tables, root: nat)
    requires TreeOk(before, home, root)
    requires forall g, p :: AtLevel(home, g, p) ==> Read(after, g, p) == Read(before, g, p)
    ensures SameLeaves(before, after, root)
  {
    hide TreeOk, Read, Indices;
    forall v: nat
      ensures Leaf(after, root, v) == Leaf(before, root, v)
    {
      RootLevel(before, home, root, v);
    }
  }

  lemma {:induction false} ReachesReads(tables: Tables, g: nat, path: seq<nat>, f: nat)
    requires Reaches(tables, g, path, f)
    ensures f in tables && path != [] && path[|path| - 1] < ENTRIES
    ensures var e := tables[f][path[|path| - 1]]; Read(tables, g, path) == if Present in e.flags then Some(e) else None
    decreases |path|
  {
    if |path| > 1 {
      ReachesReads(tables, tables[g][path[0]].frame, path[1..], f);
    }
  }

  lemma LeafTable(tables: Tables, home: map<nat, seq<nat>>, root: nat, v: nat, f: nat)
    requires TreeOk(tables, home, root) && Canonical(v) && Reaches(tables, root, Indices(v), f)
    ensures f in tables && f in home && |home[f]| == 3
    ensures Leaf(tables, root, v) == if Present in tables[f][Indices(v)[3]].flags then Some(tables[f][Indices(v)[3]]) else None
  {
    hide TreeOk, Reaches, Indices, Read;
    RootLevel(tables, home, root, v);
    ReachesHome(tables, home, root, root, Indices(v), f);
    ReachesReads(tables, root, Indices(v), f);
  }

  /** Writing a leaf changes what can be done with its page and no other. */
  lemma WriteKeepsAccess(tables: Tables, home: map<nat, seq<nat>>, root: nat, v: nat, f: nat, e: Entry)
    requires TreeOk(tables, home, root) && IsPage(v) && Reaches(tables, root, Indices(v), f) && f in tables && f in home && |home[f]| == 3
    ensures var after := Written(tables, f, Indices(v)[3], e);
            && (Present in e.flags ==> Access(after, root, v) == Through(tables, root, Indices(v)) * e.flags * ACCESS)
            && (forall w: nat :: PageOf(w) != v ==> Access(after, root, w) == Access(tables, root, w))
  {
    hide TreeOk, Reaches, Indices, Read, Through;
    var after := Written(tables, f, Indices(v)[3], e);
    WriteRebinds(tables, home, root, v, f, e);
    assert PageOf(v) == v;
    forall w: nat
      ensures Through(after, root, Indices(w)) == Through(tables, root, Indices(w))
    {
      RootLevel(tables, home, root, w);
      WrittenThrough(tables, home, root, f, Indices(v)[3], e, root, Indices(w));
    }
  }

  /** Writing the entry a page's walk ends in rebinds that page and no other. */
  lemma WriteRebinds(tables: Tables, home: map<nat, seq<nat>>, root: nat, v: nat, f: nat, e: Entry)
    requires TreeOk(tables, home, root) && IsPage(v) && Reaches(tables, root, Indices(v), f) && f in tables && f in home && |home[f]| == 3
    ensures Rebound(tables, Written(tables, f, Indices(v)[3], e), root, v, if Present in e.flags then Some(e) else None)
  {
    hide TreeOk, Reaches, Indices, Read;
    forall w: nat | Canonical(w)
      ensures Leaf(Written(tables, f, Indices(v)[3], e), root, w)
              == if PageOf(w) == v then (if Present in e.flags then Some(e) else None) else Leaf(tables, root, w)
    {
      RootLevel(tables, home, root, w);
      WrittenRead(tables, home, root, f, Indices(v)[3], e, root, Indices(w));
      PageIndices(w);
      if Reaches(tables, root, Indices(w), f) && Indices(w)[3] == Indices(v)[3] {
        OnePagePerEntry(tables, home, root, v, PageOf(w), f);
      }
    }
  }

  /** The last-level table for a path, if the walk gets there. */
  function FindLeaf(tables: Tables, g: nat, path: seq<nat>): Option<nat>
    decreases |path|
  {
    if g !in tables || path == [] || path[0] >= ENTRIES then None
    else if |path| == 1 then Some(g)
    else if IsTable(tables[g][path[0]]) then FindLeaf(tables, tables[g][path[0]].frame, path[1..])
    else None
  }

  lemma {:induction false} FindLeafReads(tables: Tables, g: nat, path: seq<nat>)
    ensures var f := FindLeaf(tables, g, path);
            && (f.Some? ==> path != [] && path[|path| - 1] < ENTRIES && f.value in tables && Reaches(tables, g, path, f.value)
                            && var e := tables[f.value][path[|path| - 1]];
                               Read(tables, g, path) == if Present in e.flags then Some(e) else None)
            && (f.None? ==> Read(tables, g, path) == None)
    decreases |path|
  {
    if g in tables && |path| > 1 && path[0] < ENTRIES && IsTable(tables[g][path[0]]) {
      FindLeafReads(tables, tables[g][path[0]].frame, path[1..]);
    }
  }

  function Shared(flags: set<Flag>): (s: set<Flag>)
    ensures Present in s && Huge !in s
  {
    {Present, Writable} + if User in flags then {User} else {}
  }

  // ---- A refused call that widens ----------------------------------------------------------------

  function OneEntry(e: Entry): Table {
    Blank()[0 := e]
  }

  /** One page that users may read, behind tables that only let the kernel through. */
  function Locked(): Tables {
    var kernel := {Present, Writable};
    map[0 := OneEntry(Entry(1, kernel)), 1 := OneEntry(Entry(2, kernel)), 2 := OneEntry(Entry(3, kernel)),
        3 := OneEntry(Entry(5, {Present, User}))]
  }

  ghost function LockedHome(): map<nat, seq<nat>> {
    map[0 := [], 1 := [0], 2 := [0, 0], 3 := [0, 0, 0]]
  }

  lemma LockedChild(f: nat, i: nat)
    requires f in Locked() && i < ENTRIES
    ensures ChildOk(Locked(), LockedHome(), f, i)
  {
    assert [] + [0] == [0] && [0] + [0] == [0, 0] && [0, 0] + [0] == [0, 0, 0];
    assert i > 0 ==> Locked()[f][i] == EMPTY;
  }

  lemma LockedLinked(f: nat)
    requires f in LockedHome()
    ensures Linked(Locked(), LockedHome(), f)
  {
    var home := LockedHome();
    if f > 0 {
      assert home[f][..|home[f]| - 1] == home[f - 1];
      assert PointsTo(Locked(), home, f - 1, f);
    }
  }

  lemma LockedOk()
    ensures TreeOk(Locked(), LockedHome(), 0)
  {
    hide ChildOk, Linked;
    forall f, i | f in Locked() && 0 <= i < ENTRIES
      ensures ChildOk(Locked(), LockedHome(), f, i)
    {
      LockedChild(f, i);
    }
    forall f | f in LockedHome()
      ensures Linked(Locked(), LockedHome(), f) && |LockedHome()[f]| == f
    {
      LockedLinked(f);
    }
  }

  lemma LockedPage()
    ensures Leaf(Locked(), 0, 0) == Some(Entry(5, {Present, User})) && Access(Locked(), 0, 0) == {}
  {
    var tables, path := Locked(), [0, 0, 0, 0];
    assert Indices(0) == path && path[1..] == [0, 0, 0] && [0, 0, 0][1..] == [0, 0] && [0, 0][1..] == [0];
    assert Read(tables, 3, [0]) == Some(Entry(5, {Present, User}));
    assert Read(tables, 2, [0, 0]) == Read(tables, 3, [0]) && Read(tables, 1, [0, 0, 0]) == Read(tables, 2, [0, 0]);
    assert User !in Through(tables, 0, path);
  }

  /** A call that is refused, because the page is bound, lets users read what they could not read before. */
  method RefusedMapWidens() returns (m: MemoryManager, ok: bool, ghost before: Tables)
    ensures m.Valid() && !ok && Access(before, m.root, 0) == {} && Access(m.tables, m.root, 0) == {User}
    ensures SameLeaves(before, m.tables, m.root)
  {
    hide TreeOk, Read, Indices, Through, Opened, FreeIn, Missing, Access, Full, Widened;
    LockedOk();
    LockedPage();
    var allocator := new FrameAllocator([]);
    m := new MemoryManager(0, Locked(), allocator, LockedHome());
    before := m.tables;
    ok := m.Map(0, 0x6000, {User});
  }

  /** Under a root without entries no walk holds anything back. */
  lemma BlankIsFull(tables: Tables, root: nat)
    requires root in tables && tables[root] == Blank()
    ensures Full(tables, root)
  {
    forall w: nat
      ensures Leaf(tables, root, w) == None
    {
      BlankReads(tables, root, Indices(w));
    }
  }
}
