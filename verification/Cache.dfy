/** The object cache: slots over a compacting byte arena, evicted least recently used first. */
module Cache {
  import opened ObjectIds
  import opened Layout

  const SLOTS: nat := 16
  const ALIGNMENT: nat := 8

  /** Lengths are rounded up so that every object starts aligned. */
  function Span(length: nat): (span: nat)
    ensures length <= span < length + ALIGNMENT && span % ALIGNMENT == 0
  {
    (length + ALIGNMENT - 1) / ALIGNMENT * ALIGNMENT
  }

  datatype Slot = Slot(id: ObjectId, version: nat, offset: nat, length: nat, lastAccess: nat)

  /** One cached object as a reader sees it, wherever it lies in the arena. */
  datatype Cached = Cached(id: ObjectId, version: nat, bytes: seq<Cell>, lastAccess: nat)

  // ---- Tiling ------------------------------------------------------------------------------

  function Total(slots: seq<Slot>): nat {
    if slots == [] then 0 else Total(slots[..|slots| - 1]) + slots[|slots| - 1].length
  }

  predicate Disjoint(a: Slot, b: Slot) {
    a.offset + a.length <= b.offset || b.offset + b.length <= a.offset
  }

  /** The slots are non-empty, do not overlap, and fill `[0, used)` without a gap. */
  ghost predicate Tiles(slots: seq<Slot>, used: nat) {
    && (forall i :: 0 <= i < |slots| ==> slots[i].length > 0 && slots[i].offset + slots[i].length <= used)
    && (forall i, j :: 0 <= i < j < |slots| ==> Disjoint(slots[i], slots[j]))
    && Total(slots) == used
  }

  /** Where a slot lies once the hole before it is closed. */
  function Shifted(s: Slot, hole: Slot): Slot {
    if s.offset > hole.offset then s.(offset := if s.offset >= hole.length then s.offset - hole.length else 0) else s
  }

  function ShiftAll(slots: seq<Slot>, hole: Slot): seq<Slot> {
    seq(|slots|, i requires 0 <= i < |slots| => Shifted(slots[i], hole))
  }

  /** Removal fills the gap in the slot list with its last element. */
  function Dropped<T>(s: seq<T>, index: nat): (r: seq<T>)
    requires index < |s|
    ensures |r| == |s| - 1
  {
    s[index := s[|s| - 1]][..|s| - 1]
  }

  lemma {:induction false} TotalUpdate(slots: seq<Slot>, i: nat, s: Slot)
    requires i < |slots|
    ensures Total(slots[i := s]) + slots[i].length == Total(slots) + s.length
    decreases |slots|
  {
    var n := |slots| - 1;
    if i == n {
      assert slots[i := s][..n] == slots[..n];
    } else {
      assert slots[i := s][..n] == slots[..n][i := s];
      TotalUpdate(slots[..n], i, s);
    }
  }

  lemma {:induction false} TotalShift(slots: seq<Slot>, hole: Slot)
    ensures Total(ShiftAll(slots, hole)) == Total(slots)
    decreases |slots|
  {
    if slots != [] {
      var n := |slots| - 1;
      assert ShiftAll(slots, hole)[..n] == ShiftAll(slots[..n], hole);
      TotalShift(slots[..n], hole);
    }
  }

  lemma TotalDropped(slots: seq<Slot>, index: nat)
    requires index < |slots|
    ensures Total(Dropped(slots, index)) == Total(slots) - slots[index].length
  {
    var n, last := |slots| - 1, slots[|slots| - 1];
    TotalUpdate(slots, index, last);
    var updated := slots[index := last];
    assert Total(updated) == Total(updated[..n]) + updated[n].length && updated[n] == last;
  }

  lemma ShiftPair(a: Slot, b: Slot, hole: Slot)
    requires Disjoint(a, hole) && Disjoint(b, hole) && Disjoint(a, b) && a.length > 0 && b.length > 0 && hole.length > 0
    ensures Disjoint(Shifted(a, hole), Shifted(b, hole))
  {
  }

  lemma DroppedAt<T>(s: seq<T>, index: nat)
    requires index < |s|
    ensures forall i :: 0 <= i < |s| - 1 ==> Dropped(s, index)[i] == s[if i == index then |s| - 1 else i]
  {
  }

  /** Closing the hole keeps the tiling. */
  lemma RemoveTiles(slots: seq<Slot>, used: nat, index: nat)
    requires Tiles(slots, used) && index < |slots|
    ensures Tiles(Dropped(ShiftAll(slots, slots[index]), index), used - slots[index].length)
  {
    hide Dropped, Total;
    var hole := slots[index];
    var shifted := ShiftAll(slots, hole);
    TotalShift(slots, hole);
    TotalDropped(shifted, index);
    DroppedAt(shifted, index);
    var r, n := Dropped(shifted, index), |slots| - 1;
    forall i | 0 <= i < n
      ensures r[i].length > 0 && r[i].offset + r[i].length <= used - hole.length
    {
      var k := if i == index then n else i;
      assert Disjoint(slots[k], hole);
    }
    forall i, j | 0 <= i < j < n
      ensures Disjoint(r[i], r[j])
    {
      var k, l := if i == index then n else i, if j == index then n else j;
      assert Disjoint(slots[k], hole) && Disjoint(slots[l], hole) && Disjoint(slots[k], slots[l]);
      ShiftPair(slots[k], slots[l], hole);
    }
  }

  lemma AppendTiles(slots: seq<Slot>, used: nat, s: Slot)
    requires Tiles(slots, used) && s.offset == used && s.length > 0
    ensures Tiles(slots + [s], used + s.length)
  {
    assert (slots + [s])[..|slots|] == slots;
  }

  // ---- Eviction policy -----------------------------------------------------------------------

  /** The first slot with the oldest access. */
  function Oldest(s: seq<Cached>): (victim: nat)
    requires s != []
    ensures victim < |s|
    ensures forall i :: 0 <= i < |s| ==> s[victim].lastAccess <= s[i].lastAccess
    ensures forall i :: 0 <= i < victim ==> s[victim].lastAccess < s[i].lastAccess
  {
    if |s| == 1 then 0
    else
      var n := |s| - 1;
      var victim := Oldest(s[..n]);
      if s[n].lastAccess < s[victim].lastAccess then n else victim
  }

  function Size(s: seq<Cached>): nat {
    if s == [] then 0 else Size(s[..|s| - 1]) + |s[|s| - 1].bytes|
  }

  /** Evicting the least recently used until a slot and `span` bytes are free. */
  function MakeRoom(s: seq<Cached>, span: nat, capacity: nat): (r: seq<Cached>)
    requires span <= capacity
    ensures |r| < SLOTS && Size(r) + span <= capacity
    decreases |s|
  {
    if s == [] then s
    else if |s| >= SLOTS || Size(s) + span > capacity then MakeRoom(Dropped(s, Oldest(s)), span, capacity)
    else s
  }

  ghost predicate DistinctAccess(s: seq<Cached>) {
    forall i, j :: 0 <= i < j < |s| ==> s[i].lastAccess != s[j].lastAccess
  }

  lemma DroppedMembers<T>(s: seq<T>, index: nat)
    requires index < |s|
    ensures forall x :: x in s <==> x in Dropped(s, index) || x == s[index]
  {
    var r := Dropped(s, index);
    forall x | x in s
      ensures x in r || x == s[index]
    {
      var i :| 0 <= i < |s| && s[i] == x;
      assert i == |s| - 1 && i != index ==> r[index] == x;
      assert i < |s| - 1 && i != index ==> r[i] == x;
    }
    forall x | x in r
      ensures x in s
    {
      var i :| 0 <= i < |r| && r[i] == x;
      assert x == if i == index then s[|s| - 1] else s[i];
    }
  }

  lemma DroppedDistinct(s: seq<Cached>, index: nat)
    requires index < |s| && DistinctAccess(s)
    ensures DistinctAccess(Dropped(s, index))
    ensures forall x :: x in Dropped(s, index) ==> x.lastAccess != s[index].lastAccess
  {
    var r := Dropped(s, index);
    assert forall i :: 0 <= i < |r| ==> r[i] == (if i == index then s[|s| - 1] else s[i]);
  }

  /** Making room only ever removes. */
  lemma {:induction false} MakeRoomRemoves(s: seq<Cached>, span: nat, capacity: nat)
    requires span <= capacity
    ensures forall x :: x in MakeRoom(s, span, capacity) ==> x in s
    decreases |s|
  {
    if s != [] && (|s| >= SLOTS || Size(s) + span > capacity) {
      DroppedMembers(s, Oldest(s));
      MakeRoomRemoves(Dropped(s, Oldest(s)), span, capacity);
    }
  }

  /**
   * What making room means: the survivors are untouched, everything evicted was used less
   * recently than every survivor, and nothing is evicted that fits.
   */
  lemma {:induction false} MakeRoomIsLru(s: seq<Cached>, span: nat, capacity: nat)
    requires span <= capacity && DistinctAccess(s)
    ensures forall gone, kept :: gone in s && gone !in MakeRoom(s, span, capacity) && kept in MakeRoom(s, span, capacity) ==>
              gone.lastAccess < kept.lastAccess
    ensures |s| < SLOTS && Size(s) + span <= capacity ==> MakeRoom(s, span, capacity) == s
    ensures DistinctAccess(MakeRoom(s, span, capacity))
    decreases |s|
  {
    if s != [] && (|s| >= SLOTS || Size(s) + span > capacity) {
      var v := Oldest(s);
      var rest := Dropped(s, v);
      DroppedMembers(s, v);
      DroppedDistinct(s, v);
      MakeRoomIsLru(rest, span, capacity);
      MakeRoomRemoves(rest, span, capacity);
      var r := MakeRoom(s, span, capacity);
      forall gone, kept | gone in s && gone !in r && kept in r
        ensures gone.lastAccess < kept.lastAccess
      {
        if gone == s[v] {
          var k :| 0 <= k < |s| && s[k] == kept;
        }
      }
    }
  }

  // ---- The arena ----------------------------------------------------------------------------

  ghost predicate InArena(slots: seq<Slot>, cells: seq<Cell>) {
    forall i :: 0 <= i < |slots| ==> slots[i].offset + slots[i].length <= |cells|
  }

  ghost function ViewOne(s: Slot, cells: seq<Cell>): Cached
    requires s.offset + s.length <= |cells|
  {
    Cached(s.id, s.version, cells[s.offset..s.offset + s.length], s.lastAccess)
  }

  ghost function View(slots: seq<Slot>, cells: seq<Cell>): (v: seq<Cached>)
    requires InArena(slots, cells)
    ensures |v| == |slots|
  {
    seq(|slots|, i requires 0 <= i < |slots| => ViewOne(slots[i], cells))
  }

  /** The arena once the bytes behind a hole have moved down over it. */
  ghost function Cut(cells: seq<Cell>, hole: Slot, used: nat): (r: seq<Cell>)
    requires hole.offset + hole.length <= used <= |cells|
    ensures |r| == |cells|
  {
    cells[..hole.offset] + cells[hole.offset + hole.length..used] + cells[used - hole.length..]
  }

  lemma CutIs(cells: seq<Cell>, after: seq<Cell>, hole: Slot, used: nat)
    requires hole.offset + hole.length <= used <= |cells| == |after|
    requires forall i :: 0 <= i < hole.offset ==> after[i] == cells[i]
    requires forall i :: hole.offset <= i < used - hole.length ==> after[i] == cells[i + hole.length]
    requires forall i :: used - hole.length <= i < |cells| ==> after[i] == cells[i]
    ensures after == Cut(cells, hole, used)
  {
  }

  /** Closing a hole moves bytes, but every other object keeps its own. */
  lemma CutKeeps(s: Slot, hole: Slot, cells: seq<Cell>, used: nat)
    requires Disjoint(s, hole) && s.length > 0 && hole.length > 0
    requires hole.offset + hole.length <= used <= |cells| && s.offset + s.length <= used
    ensures Shifted(s, hole).offset + s.length <= used - hole.length
    ensures ViewOne(Shifted(s, hole), Cut(cells, hole, used)) == ViewOne(s, cells)
  {
    hide Cut;
    var t, after := Shifted(s, hole), Cut(cells, hole, used);
    forall i | t.offset <= i < t.offset + s.length
      ensures after[i] == cells[i - t.offset + s.offset]
    {
      CutAt(cells, hole, used, i);
    }
    SameSlices(after, cells, t.offset, s.offset, s.length);
  }

  lemma CutAt(cells: seq<Cell>, hole: Slot, used: nat, i: nat)
    requires hole.offset + hole.length <= used <= |cells| && i < used - hole.length
    ensures Cut(cells, hole, used)[i] == cells[if i < hole.offset then i else i + hole.length]
  {
  }

  lemma SameSlices(a: seq<Cell>, b: seq<Cell>, i: nat, j: nat, n: nat)
    requires i + n <= |a| && j + n <= |b| && forall k :: i <= k < i + n ==> a[k] == b[k - i + j]
    ensures a[i..i + n] == b[j..j + n]
  {
  }

  lemma RemoveView(slots: seq<Slot>, cells: seq<Cell>, used: nat, index: nat)
    requires Tiles(slots, used) && used <= |cells| && index < |slots|
    ensures InArena(Dropped(ShiftAll(slots, slots[index]), index), Cut(cells, slots[index], used))
    ensures InArena(slots, cells)
    ensures View(Dropped(ShiftAll(slots, slots[index]), index), Cut(cells, slots[index], used))
            == Dropped(View(slots, cells), index)
  {
    hide Dropped, Total, Cut, Disjoint, Shifted, ViewOne;
    var hole := slots[index];
    var shifted, after := ShiftAll(slots, hole), Cut(cells, hole, used);
    DroppedAt(shifted, index);
    DroppedAt(View(slots, cells), index);
    var r, n := Dropped(shifted, index), |slots| - 1;
    forall i | 0 <= i < n
      ensures r[i].offset + r[i].length <= |cells|
      ensures ViewOne(r[i], after) == View(slots, cells)[if i == index then n else i]
    {
      var k := if i == index then n else i;
      SlotsApart(slots, used, k, index);
      CutKeeps(slots[k], hole, cells, used);
      ShiftedLength(slots[k], hole);
    }
  }

  lemma SlotsApart(slots: seq<Slot>, used: nat, i: nat, j: nat)
    requires Tiles(slots, used) && i < |slots| && j < |slots| && i != j
    ensures Disjoint(slots[i], slots[j]) && slots[i].length > 0 && slots[j].length > 0
  {
  }

  lemma ShiftedLength(s: Slot, hole: Slot)
    ensures Shifted(s, hole).length == s.length
  {
  }

  lemma {:induction false} SizeIsTotal(slots: seq<Slot>, cells: seq<Cell>)
    requires InArena(slots, cells)
    ensures Size(View(slots, cells)) == Total(slots)
    decreases |slots|
  {
    if slots != [] {
      var n := |slots| - 1;
      assert View(slots, cells)[..n] == View(slots[..n], cells);
      SizeIsTotal(slots[..n], cells);
    }
  }

  ghost predicate UniqueSlots(s: seq<Cached>) {
    forall i, j :: 0 <= i < j < |s| ==> s[i].id != s[j].id
  }

  ghost predicate AccessedBy(s: seq<Cached>, clock: nat) {
    forall i :: 0 <= i < |s| ==> s[i].lastAccess <= clock
  }

  lemma DroppedUnique(s: seq<Cached>, index: nat, clock: nat)
    requires index < |s| && UniqueSlots(s) && DistinctAccess(s) && AccessedBy(s, clock)
    ensures UniqueSlots(Dropped(s, index)) && DistinctAccess(Dropped(s, index)) && AccessedBy(Dropped(s, index), clock)
    ensures forall i :: 0 <= i < |s| - 1 ==> Dropped(s, index)[i].id != s[index].id
  {
    DroppedAt(s, index);
  }

  class ObjectCache {
    const arena: array<Cell>
    var slots: seq<Slot>
    var used: nat
    var clock: nat

    ghost predicate Valid()
      reads this, arena
    {
      && |slots| <= SLOTS && used <= arena.Length
      && Tiles(slots, used)
      && InArena(slots, arena[..])
      && UniqueSlots(Entries()) && DistinctAccess(Entries()) && AccessedBy(Entries(), clock)
    }

    ghost function Entries(): seq<Cached>
      requires InArena(slots, arena[..])
      reads this, arena
    {
      View(slots, arena[..])
    }

    constructor (capacity: nat)
      ensures Valid() && Entries() == [] && arena.Length == capacity && fresh(arena)
    {
      arena := new Cell[capacity](_ => Raw(0));
      slots, used, clock := [], 0, 0;
    }

    method MoveDown(hole: Slot)
      requires hole.offset + hole.length <= used <= arena.Length
      modifies arena
      ensures arena[..] == Cut(old(arena[..]), hole, used)
    {
      ghost var cells := arena[..];
      var k := hole.offset;
      while k < used - hole.length
        invariant hole.offset <= k <= used - hole.length
        invariant forall i :: 0 <= i < hole.offset ==> arena[i] == cells[i]
        invariant forall i :: hole.offset <= i < k ==> arena[i] == cells[i + hole.length]
        invariant forall i :: k <= i < arena.Length ==> arena[i] == cells[i]
      {
        arena[k] := arena[k + hole.length];
        k := k + 1;
      }
      CutIs(cells, arena[..], hole, used);
    }

    method ShiftSlots(hole: Slot)
      modifies this`slots
      ensures slots == ShiftAll(old(slots), hole)
    {
      var i := 0;
      while i < |slots|
        invariant 0 <= i <= |slots| == |old(slots)|
        invariant forall k :: 0 <= k < i ==> slots[k] == Shifted(old(slots)[k], hole)
        invariant forall k :: i <= k < |slots| ==> slots[k] == old(slots)[k]
      {
        if slots[i].offset > hole.offset {
          slots := slots[i := Shifted(slots[i], hole)];
        }
        i := i + 1;
      }
    }

    /** Forgets one object and closes its hole; every other object keeps its bytes. */
    method RemoveSlot(index: nat)
      requires Valid() && index < |slots|
      modifies this`slots, this`used, arena
      ensures Valid() && Entries() == Dropped(old(Entries()), index)
    {
      hide Cut, Dropped, ShiftAll, View, UniqueSlots, DistinctAccess, AccessedBy, Tiles;
      var hole := slots[index];
      SlotEnds(slots, used, index);
      RemoveView(slots, arena[..], used, index);
      RemoveTiles(slots, used, index);
      DroppedUnique(Entries(), index, clock);
      MoveDown(hole);
      ShiftSlots(hole);
      used := used - hole.length;
      slots := Dropped(slots, index);
    }

    /** Evicts the least recently used object. */
    method EvictLru()
      requires Valid()
      modifies this`slots, this`used, arena
      ensures Valid()
      ensures old(slots) == [] ==> slots == [] && Entries() == []
      ensures old(slots) != [] ==> Entries() == Dropped(old(Entries()), Oldest(old(Entries())))
    {
      hide UniqueSlots, DistinctAccess, AccessedBy, Tiles;
      if |slots| == 0 {
        return;
      }
      var victim := 0;
      var i := 1;
      while i < |slots|
        invariant 1 <= i <= |slots| && victim < i
        invariant victim == Oldest(Entries()[..i])
      {
        assert Entries()[..i + 1][..i] == Entries()[..i];
        if slots[i].lastAccess < slots[victim].lastAccess {
          victim := i;
        }
        i := i + 1;
      }
      assert Entries()[..i] == Entries();
      RemoveSlot(victim);
    }

    /** The slot caching this version of the object, if there is one. */
    method Lookup(id: ObjectId, version: nat) returns (index: Option<nat>)
      requires Valid()
      ensures index.Some? ==> index.value < |slots| && Entries()[index.value].id == id && Entries()[index.value].version == version
      ensures index.None? ==> forall i :: 0 <= i < |slots| ==> !(Entries()[i].id == id && Entries()[i].version == version)
    {
      hide UniqueSlots, DistinctAccess, AccessedBy, Tiles;
      var i := 0;
      while i < |slots|
        invariant 0 <= i <= |slots|
        invariant forall k :: 0 <= k < i ==> !(slots[k].id == id && slots[k].version == version)
      {
        if slots[i].version == version && slots[i].id == id {
          return Some(i);
        }
        i := i + 1;
      }
      return None;
    }

    /** A hit makes the object the most recently used one. */
    method Touch(index: nat)
      requires Valid() && index < |slots|
      modifies this`slots, this`clock
      ensures Valid() && clock == old(clock) + 1
      ensures Entries() == old(Entries())[index := old(Entries())[index].(lastAccess := clock)]
    {
      clock := clock + 1;
      TouchTiles(slots, used, index, clock);
      slots := slots[index := slots[index].(lastAccess := clock)];
      assert Entries() == old(Entries())[index := old(Entries())[index].(lastAccess := clock)];
    }

    /** Forgets the object's slot, whatever version it caches. */
    method Forget(id: ObjectId)
      requires Valid()
      modifies this`slots, this`used, arena
      ensures Valid() && Entries() == Without(old(Entries()), id)
    {
      hide UniqueSlots, DistinctAccess, AccessedBy, Tiles, Dropped;
      var i := 0;
      while i < |slots|
        invariant 0 <= i <= |slots|
        invariant Valid() && slots == old(slots) && arena[..] == old(arena[..])
        invariant Without(Entries(), id) == WithoutFrom(Entries(), id, i)
      {
        if slots[i].id == id {
          RemoveSlot(i);
          return;
        }
        i := i + 1;
      }
    }

    /** Evicts until a slot and `span` bytes are free: both loops end because slots tile the arena. */
    method Evict(span: nat)
      requires Valid() && span <= arena.Length
      modifies this`slots, this`used, arena
      ensures Valid() && |slots| < SLOTS && used + span <= arena.Length
      ensures Entries() == MakeRoom(old(Entries()), span, arena.Length)
    {
      hide UniqueSlots, DistinctAccess, AccessedBy, Tiles, Dropped, View, Oldest;
      UsedIsSize();
      while |slots| >= SLOTS
        invariant Valid()
        invariant MakeRoom(Entries(), span, arena.Length) == MakeRoom(old(Entries()), span, arena.Length)
        decreases |slots|
      {
        EvictLru();
      }
      UsedIsSize();
      while used + span > arena.Length
        invariant Valid() && |slots| < SLOTS && used == Size(Entries())
        invariant MakeRoom(Entries(), span, arena.Length) == MakeRoom(old(Entries()), span, arena.Length)
        decreases |slots|
      {
        EvictLru();
        UsedIsSize();
      }
    }

    lemma UsedIsSize()
      requires Valid()
      ensures used == Size(Entries())
    {
      SizeIsTotal(slots, arena[..]);
    }

    method CopyIn(bytes: seq<Cell>)
      requires used + |bytes| <= arena.Length
      modifies arena
      ensures arena[used..used + |bytes|] == bytes && arena[..used] == old(arena[..used])
    {
      ghost var cells := arena[..];
      var k := 0;
      while k < |bytes|
        invariant 0 <= k <= |bytes|
        invariant forall i :: 0 <= i < k ==> arena[used + i] == bytes[i]
        invariant forall i :: 0 <= i < used ==> arena[i] == cells[i]
      {
        arena[used + k] := bytes[k];
        k := k + 1;
      }
    }

    method Append(s: Slot, bytes: seq<Cell>)
      requires Valid() && |slots| < SLOTS
      requires s.offset == used && |bytes| <= s.length && 0 < s.length && used + s.length <= arena.Length
      requires s.lastAccess == clock && forall x :: x in Entries() ==> x.id != s.id && x.lastAccess < clock
      modifies this`slots, this`used, arena
      ensures Valid() && slots == old(slots) + [s]
      ensures |Entries()| == |slots| && Entries()[..|old(slots)|] == old(Entries())
      ensures var last := Entries()[|old(slots)|];
              && last.id == s.id && last.version == s.version && last.lastAccess == s.lastAccess
              && |bytes| <= |last.bytes| && last.bytes[..|bytes|] == bytes
    {
      hide Tiles, UniqueSlots, DistinctAccess, AccessedBy, View;
      ghost var cells := arena[..];
      AppendTiles(slots, used, s);
      SlotsEnd(slots, used);
      CopyIn(bytes);
      AppendView(slots, used, cells, arena[..], s, bytes);
      AppendUnique(View(slots, cells), ViewOne(s, arena[..]), clock);
      slots := slots + [s];
      used := used + s.length;
    }

    /**
     * Caches an object: its earlier version goes, then the least recently used ones as far
     * as needed. Refused exactly when it could never fit.
     */
    method Insert(id: ObjectId, version: nat, bytes: seq<Cell>) returns (ok: bool)
      requires Valid()
      modifies this`slots, this`used, this`clock, arena
      ensures Valid()
      ensures ok <==> bytes != [] && Span(|bytes|) <= arena.Length
      ensures !ok ==> Entries() == old(Entries()) && clock == old(clock)
      ensures ok ==> |Entries()| > 0
                     && Entries()[..|Entries()| - 1] == MakeRoom(Without(old(Entries()), id), Span(|bytes|), arena.Length)
      ensures ok ==> var last := Entries()[|Entries()| - 1];
                     && last.id == id && last.version == version && last.lastAccess == clock == old(clock) + 1
                     && |bytes| <= |last.bytes| && last.bytes[..|bytes|] == bytes
    {
      hide Tiles, MakeRoom, Without, Dropped, View, UniqueSlots, DistinctAccess;
      var span := Span(|bytes|);
      if |bytes| == 0 || span > arena.Length {
        return false;
      }
      Forget(id);
      ghost var rest := Entries();
      WithoutIsGone(old(Entries()), id);
      Evict(span);
      MakeRoomRemoves(rest, span, arena.Length);
      clock := clock + 1;
      Append(Slot(id, version, used, span, clock), bytes);
      ok := true;
    }
  }

  lemma AppendView(slots: seq<Slot>, used: nat, cells: seq<Cell>, after: seq<Cell>, s: Slot, bytes: seq<Cell>)
    requires |after| == |cells| && used + s.length <= |cells| && |bytes| <= s.length && s.offset == used
    requires forall i :: 0 <= i < |slots| ==> slots[i].offset + slots[i].length <= used
    requires after[..used] == cells[..used] && after[used..used + |bytes|] == bytes
    ensures InArena(slots, cells) && InArena(slots + [s], after)
    ensures View(slots + [s], after) == View(slots, cells) + [ViewOne(s, after)]
    ensures ViewOne(s, after).bytes[..|bytes|] == bytes
  {
    forall i | 0 <= i < |slots|
      ensures ViewOne(slots[i], after) == ViewOne(slots[i], cells)
    {
      var lo, n := slots[i].offset, slots[i].length;
      forall k | lo <= k < lo + n
        ensures after[k] == cells[k]
      {
        assert after[k] == after[..used][k] && cells[k] == cells[..used][k];
      }
      SameSlices(after, cells, lo, lo, n);
    }
    assert ViewOne(s, after).bytes[..|bytes|] == after[used..used + |bytes|];
  }

  lemma AppendUnique(s: seq<Cached>, x: Cached, clock: nat)
    requires UniqueSlots(s) && DistinctAccess(s) && AccessedBy(s, clock) && x.lastAccess == clock
    requires forall y :: y in s ==> y.id != x.id && y.lastAccess < clock
    ensures UniqueSlots(s + [x]) && DistinctAccess(s + [x]) && AccessedBy(s + [x], clock)
  {
    assert forall i :: 0 <= i < |s| ==> s[i] in s;
  }

  /** The entries without the one for `id`. */
  ghost function Without(s: seq<Cached>, id: ObjectId): seq<Cached> {
    WithoutFrom(s, id, 0)
  }

  ghost function WithoutFrom(s: seq<Cached>, id: ObjectId, i: nat): seq<Cached>
    decreases |s| - i
  {
    if i >= |s| then s
    else if s[i].id == id then Dropped(s, i)
    else WithoutFrom(s, id, i + 1)
  }

  lemma {:induction false} WithoutFromIsGone(s: seq<Cached>, id: ObjectId, i: nat)
    requires UniqueSlots(s) && i <= |s| && forall k :: 0 <= k < i ==> s[k].id != id
    ensures forall x :: x in WithoutFrom(s, id, i) <==> x in s && x.id != id
    decreases |s| - i
  {
    if i < |s| {
      if s[i].id == id {
        DroppedMembers(s, i);
        DroppedAt(s, i);
      } else {
        WithoutFromIsGone(s, id, i + 1);
      }
    }
  }

  lemma WithoutIsGone(s: seq<Cached>, id: ObjectId)
    requires UniqueSlots(s)
    ensures forall x :: x in Without(s, id) <==> x in s && x.id != id
  {
    WithoutFromIsGone(s, id, 0);
  }

  lemma TouchTiles(slots: seq<Slot>, used: nat, index: nat, clock: nat)
    requires Tiles(slots, used) && index < |slots|
    ensures Tiles(slots[index := slots[index].(lastAccess := clock)], used)
  {
    TotalUpdate(slots, index, slots[index].(lastAccess := clock));
  }

  lemma SlotsEnd(slots: seq<Slot>, used: nat)
    requires Tiles(slots, used)
    ensures forall i :: 0 <= i < |slots| ==> slots[i].offset + slots[i].length <= used
  {
  }

  lemma SlotEnds(slots: seq<Slot>, used: nat, index: nat)
    requires Tiles(slots, used) && index < |slots|
    ensures slots[index].offset + slots[index].length <= used && slots[index].length > 0
  {
  }
}
