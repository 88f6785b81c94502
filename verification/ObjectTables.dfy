/** The sorted object table: binary search, insertion and removal in place. */
module ObjectTables {
  import opened ObjectIds

  /** Where one version of an object lives on disk. */
  datatype Entry = Entry(id: ObjectId, version: nat, first: nat, count: nat)

  /** Entries the table and the on-disk table format accept. */
  predicate IsValidEntry(e: Entry) {
    !IsZero(e.id) && e.version != 0 && e.first != 0 && e.count != 0
  }

  ghost predicate Sorted(t: seq<Entry>) {
    forall i, j :: 0 <= i < j < |t| ==> Less(t[i].id, t[j].id)
  }

  /** The number of leading entries below `id`: where `id` is, or belongs. */
  function Rank(t: seq<Entry>, id: ObjectId): (r: nat)
    ensures r <= |t|
    ensures forall i :: 0 <= i < r ==> Less(t[i].id, id)
    ensures r < |t| ==> !Less(t[r].id, id)
  {
    if t == [] || !Less(t[0].id, id) then 0
    else
      var rest := Rank(t[1..], id);
      assert forall i :: 1 <= i < rest + 1 ==> t[i] == t[1..][i - 1];
      1 + rest
  }

  function Find(t: seq<Entry>, id: ObjectId): (r: Option<Entry>) {
    var p := Rank(t, id);
    if p < |t| && t[p].id == id then Some(t[p]) else None
  }

  function Upserted(t: seq<Entry>, e: Entry): seq<Entry> {
    var p := Rank(t, e.id);
    if p < |t| && t[p].id == e.id then t[p := e] else t[..p] + [e] + t[p..]
  }

  function Removed(t: seq<Entry>, id: ObjectId): seq<Entry> {
    var p := Rank(t, id);
    if p < |t| && t[p].id == id then t[..p] + t[p + 1..] else t
  }

  /** In a sorted table nothing from the rank on is below the id. */
  lemma RankIsLowerBound(t: seq<Entry>, id: ObjectId, p: nat)
    requires Sorted(t) && p <= |t|
    requires forall i :: 0 <= i < p ==> Less(t[i].id, id)
    requires forall i :: p <= i < |t| ==> !Less(t[i].id, id)
    ensures p == Rank(t, id)
  {
    assert p < |t| ==> !Less(t[p].id, id);
  }

  /** Binary-search lookup agrees with membership: found exactly when present. */
  lemma FindMeansMember(t: seq<Entry>, id: ObjectId)
    requires Sorted(t)
    ensures Find(t, id).Some? ==> Find(t, id).value in t && Find(t, id).value.id == id
    ensures forall e :: e in t && e.id == id ==> Find(t, id) == Some(e)
  {
    var p := Rank(t, id);
    assert forall k :: p < k < |t| ==> Less(t[p].id, t[k].id);
    forall e | e in t && e.id == id
      ensures Find(t, id) == Some(e)
    {
      var k :| 0 <= k < |t| && t[k] == e;
    }
  }

  lemma ReplacedMeaning(t: seq<Entry>, e: Entry, p: nat)
    requires Sorted(t) && p < |t| && t[p].id == e.id
    ensures Sorted(t[p := e]) && forall x :: x in t[p := e] <==> x == e || (x in t && x.id != e.id)
  {
    var u := t[p := e];
    assert u[p] == e;
    forall x | x in t && x.id != e.id
      ensures x in u
    {
      var k :| 0 <= k < |t| && t[k] == x;
      assert u[k] == x;
    }
    forall x | x in u && x != e
      ensures x in t && x.id != e.id
    {
      var k :| 0 <= k < |u| && u[k] == x;
      assert k < p || p < k;
    }
  }

  lemma InsertMembers(t: seq<Entry>, e: Entry, p: nat)
    requires p <= |t|
    ensures forall x :: x in t[..p] + [e] + t[p..] <==> x == e || x in t
  {
    assert t == t[..p] + t[p..];
  }

  /** Upsert keeps order and replaces exactly the entry of that id. */
  lemma UpsertedMeaning(t: seq<Entry>, e: Entry)
    requires Sorted(t)
    ensures Sorted(Upserted(t, e))
    ensures forall x :: x in Upserted(t, e) <==> x == e || (x in t && x.id != e.id)
    ensures |Upserted(t, e)| == |t| + (if Find(t, e.id).Some? then 0 else 1)
  {
    var p := Rank(t, e.id);
    if p < |t| && t[p].id == e.id {
      ReplacedMeaning(t, e, p);
    } else {
      forall i | p < i < |t|
        ensures Less(e.id, t[i].id)
      {
        assert Less(t[p].id, t[i].id);
      }
      InsertMembers(t, e, p);
      forall x | x in t
        ensures x.id != e.id
      {
        var k :| 0 <= k < |t| && t[k] == x;
      }
    }
  }

  /** Removal keeps order and drops exactly the entry of that id. */
  lemma RemovedMeaning(t: seq<Entry>, id: ObjectId)
    requires Sorted(t)
    ensures Sorted(Removed(t, id))
    ensures forall x :: x in Removed(t, id) <==> x in t && x.id != id
    ensures |Removed(t, id)| == |t| - (if Find(t, id).Some? then 1 else 0)
  {
    var p := Rank(t, id);
    var u := Removed(t, id);
    FindMeansMember(t, id);
    if p < |t| && t[p].id == id {
      forall x | x in t && x.id != id
        ensures x in u
      {
        var k :| 0 <= k < |t| && t[k] == x;
        assert u[if k < p then k else k - 1] == x;
      }
      forall x | x in u
        ensures x in t && x.id != id
      {
        var k :| 0 <= k < |u| && u[k] == x;
        assert x == t[if k < p then k else k + 1];
      }
    }
  }

  /** A sorted table is determined by the set of entries it holds. */
  lemma {:induction false} SortedTableIsDetermined(t: seq<Entry>, u: seq<Entry>)
    requires Sorted(t) && Sorted(u)
    requires forall x :: x in t <==> x in u
    ensures t == u
  {
    assert u != [] ==> u[0] in t;
    assert t != [] ==> t[0] in u;
    if t != [] {
      var i :| 0 <= i < |t| && t[i] == u[0];
      var j :| 0 <= j < |u| && u[j] == t[0];
      assert i > 0 ==> Less(t[0].id, u[0].id);
      assert j > 0 ==> Less(u[0].id, t[0].id);
      forall x
        ensures x in t[1..] <==> x in u[1..]
      {
        if x in t[1..] {
          var k :| 1 <= k < |t| && t[k] == x;
          assert Less(t[0].id, x.id);
          assert x in u;
        }
        if x in u[1..] {
          var k :| 1 <= k < |u| && u[k] == x;
          assert Less(u[0].id, x.id);
          assert x in t;
        }
      }
      SortedTableIsDetermined(t[1..], u[1..]);
      assert t == [t[0]] + t[1..];
      assert u == [u[0]] + u[1..];
    }
  }

  const NO_ENTRY := Entry(ObjectId(0, 0), 0, 0, 0)

  /** A table over a caller-supplied buffer of fixed capacity. */
  class ObjectTable {
    const entries: array<Entry>
    var count: nat

    ghost predicate Valid()
      reads this, entries
    {
      count <= entries.Length && Sorted(entries[..count])
    }

    ghost function Contents(): seq<Entry>
      requires count <= entries.Length
      reads this, entries
    {
      entries[..count]
    }

    constructor (capacity: nat)
      ensures Valid() && Contents() == [] && entries.Length == capacity
      ensures fresh(entries)
    {
      entries := new Entry[capacity](_ => NO_ENTRY);
      count := 0;
    }

    method Lookup(id: ObjectId) returns (r: Option<Entry>)
      requires Valid()
      ensures r == (if IsZero(id) then None else Find(Contents(), id))
    {
      if IsZero(id) {
        return None;
      }
      ghost var t := Contents();
      var left, right := 0, count;
      while left < right
        invariant 0 <= left <= right <= count
        invariant forall i :: 0 <= i < left ==> Less(t[i].id, id)
        invariant forall i :: right <= i < count ==> Less(id, t[i].id)
      {
        var middle := left + (right - left) / 2;
        var comparison := Compare(entries[middle].id, id);
        assert t[middle] == entries[middle];
        if comparison < 0 {
          left := middle + 1;
        } else if comparison > 0 {
          right := middle;
        } else {
          FindMeansMember(t, id);
          return Some(entries[middle]);
        }
      }
      RankIsLowerBound(t, id, left);
      return None;
    }

    /** The shared lower-bound search of upsert and remove. */
    method LowerBound(id: ObjectId) returns (left: nat)
      requires Valid()
      ensures left == Rank(Contents(), id)
    {
      ghost var t := Contents();
      var right := count;
      left := 0;
      while left < right
        invariant 0 <= left <= right <= count
        invariant forall i :: 0 <= i < left ==> Less(t[i].id, id)
        invariant forall i :: right <= i < count ==> !Less(t[i].id, id)
      {
        var middle := left + (right - left) / 2;
        assert t[middle] == entries[middle];
        if Compare(entries[middle].id, id) < 0 {
          left := middle + 1;
        } else {
          right := middle;
        }
      }
      RankIsLowerBound(t, id, left);
    }

    /** Opens a gap by shifting the tail up one place, last entry first. */
    method InsertAt(position: nat, entry: Entry)
      requires position <= count < entries.Length
      modifies this`count, entries
      ensures count == old(count) + 1
      ensures Contents() == old(Contents())[..position] + [entry] + old(Contents())[position..]
    {
      ghost var t := Contents();
      var index := count;
      while index > position
        invariant position <= index <= count == |t|
        invariant forall i :: 0 <= i < index ==> entries[i] == t[i]
        invariant forall i :: index < i <= count ==> entries[i] == t[i - 1]
      {
        entries[index] := entries[index - 1];
        index := index - 1;
      }
      entries[position] := entry;
      count := count + 1;
    }

    /** Closes the gap by shifting the tail down one place, first entry first. */
    method RemoveAt(start: nat)
      requires start < count <= entries.Length
      modifies this`count, entries
      ensures count == old(count) - 1
      ensures Contents() == old(Contents())[..start] + old(Contents())[start + 1..]
      ensures entries[count] == NO_ENTRY
    {
      ghost var t := Contents();
      var position := start;
      while position + 1 < count
        invariant start <= position < count == |t|
        invariant forall i :: 0 <= i < start ==> entries[i] == t[i]
        invariant forall i :: start <= i < position ==> entries[i] == t[i + 1]
        invariant forall i :: position <= i < count ==> entries[i] == t[i]
      {
        entries[position] := entries[position + 1];
        position := position + 1;
      }
      count := count - 1;
      entries[count] := NO_ENTRY;
    }

    method Upsert(entry: Entry) returns (ok: bool)
      requires Valid()
      modifies this`count, entries
      ensures Valid()
      ensures var found := Find(old(Contents()), entry.id);
              ok == (IsValidEntry(entry) &&
                     if found.Some? then entry.version > found.value.version
                     else old(count) < entries.Length)
      ensures Contents() == if ok then Upserted(old(Contents()), entry) else old(Contents())
    {
      if !IsValidEntry(entry) {
        return false;
      }
      UpsertedMeaning(Contents(), entry);
      var position := LowerBound(entry.id);
      if position < count && entries[position].id == entry.id {
        if entry.version <= entries[position].version {
          return false;
        }
        entries[position] := entry;
        assert Contents() == old(Contents())[position := entry];
        return true;
      }
      if count == entries.Length {
        return false;
      }
      InsertAt(position, entry);
      return true;
    }

    method Remove(id: ObjectId) returns (ok: bool)
      requires Valid()
      modifies this`count, entries
      ensures Valid()
      ensures ok == (!IsZero(id) && Find(old(Contents()), id).Some?)
      ensures Contents() == if ok then Removed(old(Contents()), id) else old(Contents())
      ensures ok ==> count == old(count) - 1 && entries[count] == NO_ENTRY
    {
      if IsZero(id) {
        return false;
      }
      RemovedMeaning(Contents(), id);
      var position := LowerBound(id);
      if position == count || entries[position].id != id {
        return false;
      }
      RemoveAt(position);
      return true;
    }
  }
}
