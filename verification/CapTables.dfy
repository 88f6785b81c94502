/** Per-component capability tables: slots with parents and generations. */
module CapTables {
  import opened ObjectIds
  import Derivations

  const SLOTS: nat := 16
  const NONE: nat := 0xFFFF_FFFF
  const GENERATION_MAX: nat := 0xFFFF_FFFF

  const READ: bv32 := 1
  const WRITE: bv32 := 2
  const SEND: bv32 := 4
  const GRANT: bv32 := 8
  const ALL: bv32 := 15

  // ---- Capabilities ----------------------------------------------------------------------------

  datatype Cap = Cap(subject: ObjectId, rights: bv32, badge: nat)

  const NO_CAP := Cap(ObjectId(0, 0), 0, 0)

  predicate RightsOk(rights: bv32) {
    rights != 0 && rights & ALL == rights
  }

  predicate CapOk(c: Cap) {
    !IsZero(c.subject) && RightsOk(c.rights)
  }

  /** Every right of the one is a right of the other. */
  predicate Within(rights: bv32, bound: bv32) {
    rights & bound == rights
  }

  predicate Allows(c: Cap, required: bv32) {
    CapOk(c) && RightsOk(required) && Within(required, c.rights)
  }

  lemma WithinIsTransitive(a: bv32, b: bv32, c: bv32)
    requires Within(a, b) && Within(b, c)
    ensures Within(a, c)
  {
    calc {
      a & c;
      (a & b) & c;
      a & (b & c);
      a & b;
      a;
    }
  }

  /** A child has the parent's object and no right the parent lacks; the parent may grant. */
  function Derived(parent: Cap, rights: bv32, badge: nat): (child: Option<Cap>)
    ensures child.Some? ==> CapOk(child.value) && MayDerive(parent, child.value) && child.value.badge == badge
  {
    if Allows(parent, GRANT) && RightsOk(rights) && Within(rights, parent.rights) then Some(Cap(parent.subject, rights, badge))
    else None
  }

  predicate MayDerive(parent: Cap, child: Cap) {
    Allows(parent, GRANT) && child.subject == parent.subject && Within(child.rights, parent.rights)
  }

  // ---- Tables ------------------------------------------------------------------------------------

  datatype Table = Table(slots: seq<Cap>, parents: seq<nat>, generations: seq<nat>)

  predicate Shaped(t: Table) {
    |t.slots| == |t.parents| == |t.generations| == SLOTS
  }

  /** A table of the fixed size. */
  type Slots = t: Table | Shaped(t)
    witness Table(seq(SLOTS, _ => NO_CAP), seq(SLOTS, _ => NONE), seq(SLOTS, _ => 0))

  function Get(t: Table, slot: nat): Option<Cap>
    requires Shaped(t)
  {
    if slot < SLOTS && CapOk(t.slots[slot]) && t.generations[slot] != 0 then Some(t.slots[slot]) else None
  }

  /** The slot `n` links up. */
  function Up(parents: seq<nat>, slot: nat, n: nat): Option<nat>
    requires |parents| == SLOTS
    decreases n
  {
    if n == 0 then Some(slot)
    else if slot >= SLOTS || parents[slot] >= SLOTS then None
    else Up(parents, parents[slot], n - 1)
  }

  ghost predicate SlotOk(t: Table, s: nat)
    requires Shaped(t) && s < SLOTS
  {
    if IsZero(t.slots[s].subject) then t.slots[s] == NO_CAP && t.parents[s] == NONE
    else
      && CapOk(t.slots[s]) && t.generations[s] != 0
      && (t.parents[s] != NONE ==>
            && t.parents[s] < SLOTS && Get(t, t.parents[s]).Some?
            && MayDerive(t.slots[t.parents[s]], t.slots[s]))
  }

  ghost predicate Acyclic(parents: seq<nat>)
    requires |parents| == SLOTS
  {
    forall s: nat, n: nat :: s < SLOTS && n > 0 ==> Up(parents, s, n) != Some(s)
  }

  /** What a table is meant to be. */
  ghost predicate TableOk(t: Table) {
    Shaped(t) && (forall s :: 0 <= s < SLOTS ==> SlotOk(t, s)) && Acyclic(t.parents)
  }

  lemma {:induction false} UpAdds(parents: seq<nat>, s: nat, a: nat, b: nat)
    requires |parents| == SLOTS
    ensures Up(parents, s, a).Some? ==> Up(parents, s, a + b) == Up(parents, Up(parents, s, a).value, b)
    ensures Up(parents, s, a).None? ==> Up(parents, s, a + b).None?
    decreases a
  {
    if a > 0 && s < SLOTS && parents[s] < SLOTS {
      UpAdds(parents, parents[s], a - 1, b);
    }
  }

  lemma {:induction false} UpInRange(parents: seq<nat>, s: nat, n: nat)
    requires |parents| == SLOTS && s < SLOTS && Up(parents, s, n).Some?
    ensures Up(parents, s, n).value < SLOTS
    decreases n
  {
    if n > 0 {
      UpInRange(parents, parents[s], n - 1);
    }
  }

  /** Sixteen links without an end must repeat a slot. */
  lemma LongWalkIsCycle(parents: seq<nat>, s: nat)
    requires |parents| == SLOTS && s < SLOTS && Up(parents, s, SLOTS).Some?
    ensures !Acyclic(parents)
  {
    forall k | 0 <= k <= SLOTS
      ensures Up(parents, s, k).Some? && Up(parents, s, k).value < SLOTS
    {
      UpAdds(parents, s, k, SLOTS - k);
      UpInRange(parents, s, k);
    }
    var walk := seq(SLOTS + 1, k requires 0 <= k <= SLOTS => Up(parents, s, k).value);
    var i, j := Derivations.Pigeonhole(walk, SLOTS);
    UpAdds(parents, s, i, j - i);
    assert Up(parents, walk[i], j - i) == Some(walk[i]);
  }

  lemma {:induction false} CycleRepeats(parents: seq<nat>, s: nat, n: nat, k: nat)
    requires |parents| == SLOTS && n > 0 && Up(parents, s, n) == Some(s)
    ensures Up(parents, s, k * n) == Some(s)
    decreases k
  {
    if k > 0 {
      CycleRepeats(parents, s, n, k - 1);
      assert k * n == (k - 1) * n + n;
      UpAdds(parents, s, (k - 1) * n, n);
    }
  }

  lemma AllGrounded(parents: seq<nat>)
    requires |parents| == SLOTS && forall s :: 0 <= s < SLOTS ==> Up(parents, s, SLOTS).None?
    ensures Acyclic(parents)
  {
    forall s: nat, n: nat | s < SLOTS && n > 0
      ensures Up(parents, s, n) != Some(s)
    {
      if Up(parents, s, n) == Some(s) {
        CycleRepeats(parents, s, n, SLOTS);
        assert SLOTS * n >= SLOTS;
        UpAdds(parents, s, SLOTS, SLOTS * n - SLOTS);
        assert false;
      }
    }
  }

  /** Checks one slot and everything above it. */
  method ChainOk(t: Table, slot: nat) returns (ok: bool)
    requires Shaped(t) && slot < SLOTS && Get(t, slot).Some?
    ensures ok ==> Up(t.parents, slot, SLOTS).None? && SlotOk(t, slot)
    ensures !ok ==> !TableOk(t)
  {
    hide Acyclic, MayDerive, CapOk;
    var current: nat := slot;
    var depth := 0;
    while depth < SLOTS
      invariant 0 <= depth <= SLOTS && current < SLOTS && Get(t, current).Some?
      invariant Up(t.parents, slot, depth) == Some(current)
      invariant depth > 0 ==> SlotOk(t, slot)
      invariant depth == 0 ==> current == slot
    {
      var parent := t.parents[current];
      UpAdds(t.parents, slot, depth, 1);
      UpStep(t.parents, current);
      if parent == NONE {
        UpAdds(t.parents, slot, depth + 1, SLOTS - (depth + 1));
        GetSlot(t, current);
        return true;
      }
      GetSlot(t, current);
      if parent >= SLOTS || Get(t, parent).None? || !MayDerive(t.slots[parent], t.slots[current]) {
        assert !SlotOk(t, current);
        return false;
      }
      current := parent;
      depth := depth + 1;
    }
    LongWalkIsCycle(t.parents, slot);
    return false;
  }

  lemma UpStep(parents: seq<nat>, s: nat)
    requires |parents| == SLOTS && s < SLOTS
    ensures Up(parents, s, 1) == if parents[s] < SLOTS then Some(parents[s]) else None
  {
    assert parents[s] < SLOTS ==> Up(parents, parents[s], 0) == Some(parents[s]);
  }

  lemma GetSlot(t: Table, s: nat)
    requires Shaped(t) && s < SLOTS && Get(t, s).Some?
    ensures !IsZero(t.slots[s].subject) && CapOk(t.slots[s]) && t.generations[s] != 0
  {
  }

  /** Accepts exactly the well-formed tables. */
  method IsValid(t: Table) returns (ok: bool)
    requires Shaped(t)
    ensures ok <==> TableOk(t)
  {
    hide Acyclic, Up, MayDerive;
    var slot := 0;
    while slot < SLOTS
      invariant 0 <= slot <= SLOTS
      invariant forall s :: 0 <= s < slot ==> SlotOk(t, s)
      invariant forall s :: 0 <= s < slot ==> Up(t.parents, s, SLOTS).None?
    {
      if IsZero(t.slots[slot].subject) {
        if t.slots[slot].rights != 0 || t.slots[slot].badge != 0 || t.parents[slot] != NONE {
          assert t.slots[slot] != NO_CAP || t.parents[slot] != NONE;
          assert !SlotOk(t, slot);
          return false;
        }
        EmptySlot(t, slot);
      } else if !CapOk(t.slots[slot]) || t.generations[slot] == 0 {
        assert !SlotOk(t, slot);
        return false;
      } else {
        var chain := ChainOk(t, slot);
        if !chain {
          return false;
        }
      }
      slot := slot + 1;
    }
    AllGrounded(t.parents);
    return true;
  }

  lemma EmptySlot(t: Table, s: nat)
    requires Shaped(t) && s < SLOTS && t.parents[s] == NONE
    ensures Up(t.parents, s, SLOTS).None?
  {
  }

  // ---- Filling a slot --------------------------------------------------------------------------

  /** Empty and not worn out: a slot whose generation is used up is never filled again. */
  predicate Free(t: Table, s: nat)
    requires Shaped(t)
  {
    s < SLOTS && IsZero(t.slots[s].subject) && t.generations[s] < GENERATION_MAX
  }

  function Placed(t: Table, s: nat, c: Cap, parent: nat): (r: Table)
    requires Shaped(t) && s < SLOTS
    ensures Shaped(r)
  {
    Table(t.slots[s := c], t.parents[s := parent], t.generations[s := t.generations[s] + 1])
  }

  // ---- What a copy is ------------------------------------------------------------------------------

  /** Nothing may be copied from this slot with these rights: it is empty, may not grant, or the rights are none, unknown or too many. */
  ghost predicate Refused(t: Table, slot: nat, rights: bv32)
    requires Shaped(t)
  {
    || slot >= 16 || IsZero(t.slots[slot].subject) || t.slots[slot].rights & 8 == 0
    || rights == 0 || rights & 0xFFFF_FFF0 != 0 || rights & t.slots[slot].rights != rights
  }

  /** Every slot is taken or worn out. */
  ghost predicate Exhausted(t: Table)
    requires Shaped(t)
  {
    forall s :: 0 <= s < 16 ==> !IsZero(t.slots[s].subject) || t.generations[s] >= 0xFFFF_FFFF
  }

  /** The first free slot holds a copy of `source` with exactly these rights and this badge; nothing else changed. */
  ghost predicate Copied(source: Cap, t: Table, after: Table, slot: nat, rights: bv32, badge: nat, parent: nat)
    requires Shaped(t)
  {
    && slot < 16 && IsZero(t.slots[slot].subject) && t.generations[slot] < 0xFFFF_FFFF
    && after.slots == t.slots[slot := Cap(source.subject, rights, badge)]
    && after.parents == t.parents[slot := parent] && after.generations == t.generations[slot := t.generations[slot] + 1]
  }

  lemma RightsExactly(parent: bv32, rights: bv32)
    requires RightsOk(parent)
    ensures RightsOk(8) && (Within(8, parent) <==> parent & 8 != 0)
    ensures RightsOk(rights) <==> rights != 0 && rights & 0xFFFF_FFF0 == 0
  {
  }

  /** Exactly when a capability can be derived from a slot, and which. */
  lemma DerivedExactly(t: Table, slot: nat, rights: bv32, badge: nat)
    requires TableOk(t)
    ensures Get(t, slot).None? || Derived(Get(t, slot).value, rights, badge).None? <==> Refused(t, slot, rights)
    ensures !Refused(t, slot, rights) ==>
              Derived(Get(t, slot).value, rights, badge) == Some(Cap(t.slots[slot].subject, rights, badge))
  {
    hide Acyclic, RightsOk, Within;
    if slot < SLOTS {
      assert SlotOk(t, slot);
      if !IsZero(t.slots[slot].subject) {
        RightsExactly(t.slots[slot].rights, rights);
        WithinIs(rights, t.slots[slot].rights);
      }
    }
  }

  lemma CapExactly(c: Cap)
    ensures CapOk(c) <==> !IsZero(c.subject) && c.rights != 0 && c.rights & 0xFFFF_FFF0 == 0
  {
  }

  lemma WithinIs(rights: bv32, bound: bv32)
    ensures Within(rights, bound) <==> rights & bound == rights
  {
  }

  lemma RoomExactly(t: Table)
    requires Shaped(t)
    ensures (forall s :: 0 <= s < SLOTS ==> !Free(t, s)) <==> Exhausted(t)
  {
    assert (exists s :: 0 <= s < SLOTS && Free(t, s)) <==>
           exists s :: 0 <= s < 16 && IsZero(t.slots[s].subject) && t.generations[s] < 0xFFFF_FFFF by {
      if s :| 0 <= s < SLOTS && Free(t, s) {
        assert IsZero(t.slots[s].subject);
      }
      if s :| 0 <= s < 16 && IsZero(t.slots[s].subject) && t.generations[s] < 0xFFFF_FFFF {
        assert Free(t, s);
      }
    }
  }

  /** Nothing leads to an empty slot. */
  lemma {:induction false} EmptyHasNoChildren(t: Table, s: nat, x: nat, n: nat)
    requires TableOk(t) && s < SLOTS && x < SLOTS && x != s && IsZero(t.slots[s].subject)
    ensures Up(t.parents, x, n) != Some(s)
    decreases n
  {
    hide Acyclic, MayDerive;
    if n > 0 && t.parents[x] < SLOTS {
      assert SlotOk(t, x);
      EmptyHasNoChildren(t, s, t.parents[x], n - 1);
    }
  }

  lemma {:induction false} PlacedUp(t: Table, s: nat, c: Cap, parent: nat, x: nat, n: nat)
    requires TableOk(t) && s < SLOTS && x < SLOTS && x != s && IsZero(t.slots[s].subject)
    ensures Up(Placed(t, s, c, parent).parents, x, n) == Up(t.parents, x, n)
    decreases n
  {
    hide Acyclic, MayDerive;
    if n > 0 && t.parents[x] < SLOTS {
      assert SlotOk(t, x);
      PlacedUp(t, s, c, parent, t.parents[x], n - 1);
    }
  }

  /** Filling a free slot below a live capability that may grant it keeps the table well-formed. */
  lemma PlacedOk(t: Table, s: nat, c: Cap, parent: nat)
    requires TableOk(t) && Free(t, s) && CapOk(c)
    requires parent == NONE || (parent < SLOTS && Get(t, parent).Some? && MayDerive(t.slots[parent], c))
    ensures TableOk(Placed(t, s, c, parent))
    ensures forall x :: 0 <= x < SLOTS && x != s ==> Get(Placed(t, s, c, parent), x) == Get(t, x)
    ensures Get(Placed(t, s, c, parent), s) == Some(c)
  {
    hide MayDerive, Up;
    var r := Placed(t, s, c, parent);
    PlacedAcyclic(t, s, c, parent);
    forall x | 0 <= x < SLOTS
      ensures SlotOk(r, x)
    {
      assert SlotOk(t, x);
    }
  }

  lemma PlacedAcyclic(t: Table, s: nat, c: Cap, parent: nat)
    requires TableOk(t) && Free(t, s) && (parent == NONE || (parent < SLOTS && Get(t, parent).Some?))
    ensures Acyclic(Placed(t, s, c, parent).parents)
  {
    hide MayDerive;
    var r := Placed(t, s, c, parent);
    forall x: nat, n: nat | x < SLOTS && n > 0
      ensures Up(r.parents, x, n) != Some(x)
    {
      if x == s {
        if parent < SLOTS {
          PlacedUp(t, s, c, parent, parent, n - 1);
          EmptyHasNoChildren(t, s, parent, n - 1);
        }
      } else {
        PlacedUp(t, s, c, parent, x, n);
      }
    }
  }

  // ---- Clearing slots ----------------------------------------------------------------------------

  /** The table without the marked slots. */
  function Cleared(t: Table, gone: set<nat>): (r: Table)
    requires Shaped(t)
    ensures Shaped(r)
  {
    Table(seq(SLOTS, s requires 0 <= s < SLOTS => if s in gone then NO_CAP else t.slots[s]),
          seq(SLOTS, s requires 0 <= s < SLOTS => if s in gone then NONE else t.parents[s]),
          t.generations)
  }

  lemma {:induction false} ClearedUp(t: Table, gone: set<nat>, x: nat, n: nat)
    requires Shaped(t) && x < SLOTS
    ensures Up(Cleared(t, gone).parents, x, n).Some? ==> Up(Cleared(t, gone).parents, x, n) == Up(t.parents, x, n)
    decreases n
  {
    if n > 0 && Cleared(t, gone).parents[x] < SLOTS {
      ClearedUp(t, gone, t.parents[x], n - 1);
    }
  }

  /** Clearing slots together with everything below them keeps the table well-formed. */
  lemma ClearedOk(t: Table, gone: set<nat>)
    requires TableOk(t)
    requires forall s :: 0 <= s < SLOTS && t.parents[s] in gone ==> s in gone
    ensures TableOk(Cleared(t, gone))
    ensures forall s :: 0 <= s < SLOTS ==> Get(Cleared(t, gone), s) == if s in gone then None else Get(t, s)
  {
    var r := Cleared(t, gone);
    forall s | 0 <= s < SLOTS
      ensures SlotOk(r, s)
    {
      assert SlotOk(t, s);
    }
    forall s: nat, n: nat | s < SLOTS && n > 0
      ensures Up(r.parents, s, n) != Some(s)
    {
      ClearedUp(t, gone, s, n);
    }
  }

  // ---- The table in place --------------------------------------------------------------------------

  /** At or below `root` in the local tree. */
  ghost predicate Below(parents: seq<nat>, root: nat, s: nat)
    requires |parents| == SLOTS
  {
    exists n: nat :: Up(parents, s, n) == Some(root)
  }

  ghost predicate ClosedUp(parents: seq<nat>, gone: set<nat>)
    requires |parents| == SLOTS
  {
    forall s :: 0 <= s < SLOTS && parents[s] in gone ==> s in gone
  }

  lemma {:induction false} ClosedHasAll(parents: seq<nat>, gone: set<nat>, root: nat, s: nat, n: nat)
    requires |parents| == SLOTS && ClosedUp(parents, gone) && root in gone && s < SLOTS && Up(parents, s, n) == Some(root)
    ensures s in gone
    decreases n
  {
    if n > 0 {
      ClosedHasAll(parents, gone, root, parents[s], n - 1);
    }
  }

  lemma ChildIsBelow(parents: seq<nat>, root: nat, s: nat)
    requires |parents| == SLOTS && s < SLOTS && parents[s] < SLOTS && Below(parents, root, parents[s])
    ensures Below(parents, root, s)
  {
    var n: nat :| Up(parents, parents[s], n) == Some(root);
    assert Up(parents, s, n + 1) == Some(root);
  }

  class CapTable {
    var slots: seq<Cap>
    var parents: seq<nat>
    var generations: seq<nat>

    ghost function State(): Table
      reads this
    {
      Table(slots, parents, generations)
    }

    ghost predicate Valid()
      reads this
    {
      TableOk(State())
    }

    constructor ()
      ensures Valid() && forall s :: 0 <= s < SLOTS ==> Get(State(), s) == None
    {
      slots, parents, generations := seq(SLOTS, _ => NO_CAP), seq(SLOTS, _ => NONE), seq(SLOTS, _ => 0);
      new;
      AllGrounded(parents);
    }

    /** A copy to work on. */
    constructor Of(t: Slots)
      ensures State() == t
    {
      slots, parents, generations := t.slots, t.parents, t.generations;
    }

    /** The first free slot, its generation advanced. */
    method ClaimSlot() returns (slot: Option<nat>)
      requires Shaped(State())
      modifies this`generations
      ensures slot.Some? ==> Free(old(State()), slot.value) && generations == old(generations)[slot.value := old(generations)[slot.value] + 1]
      ensures slot.Some? ==> forall s :: 0 <= s < slot.value ==> !Free(old(State()), s)
      ensures slot.None? ==> generations == old(generations) && forall s :: 0 <= s < SLOTS ==> !Free(State(), s)
    {
      var s := 0;
      while s < SLOTS
        invariant 0 <= s <= SLOTS && generations == old(generations)
        invariant forall k :: 0 <= k < s ==> !Free(State(), k)
      {
        if IsZero(slots[s].subject) && generations[s] < GENERATION_MAX {
          generations := generations[s := generations[s] + 1];
          return Some(s);
        }
        s := s + 1;
      }
      return None;
    }

    method InsertRoot(c: Cap) returns (slot: Option<nat>)
      requires Valid()
      modifies this
      ensures Valid()
      ensures slot.None? ==> State() == old(State()) && (!CapOk(c) || forall s :: 0 <= s < SLOTS ==> !Free(State(), s))
      ensures slot.Some? ==> CapOk(c) && Free(old(State()), slot.value) && State() == Placed(old(State()), slot.value, c, NONE)
      ensures slot.None? <==> IsZero(c.subject) || c.rights == 0 || c.rights & 0xFFFF_FFF0 != 0 || Exhausted(old(State()))
      ensures slot.Some? ==>
                && Copied(c, old(State()), State(), slot.value, c.rights, c.badge, 0xFFFF_FFFF)
                && forall s :: 0 <= s < slot.value ==> !Free(old(State()), s)
    {
      hide SlotOk, Acyclic, CapOk, RightsOk, Exhausted;
      CapExactly(c);
      RoomExactly(State());
      if !CapOk(c) {
        return None;
      }
      slot := ClaimSlot();
      if slot.Some? {
        PlacedOk(old(State()), slot.value, c, NONE);
        slots, parents := slots[slot.value := c], parents[slot.value := NONE];
      }
    }

    /** A weaker copy of a capability in a fresh slot below it. */
    method Derive(parent: nat, rights: bv32, badge: nat) returns (slot: Option<nat>)
      requires Valid()
      modifies this
      ensures Valid()
      ensures slot.None? ==> State() == old(State())
      ensures slot.None? ==> Get(State(), parent).None? || Derived(Get(State(), parent).value, rights, badge).None?
                             || forall s :: 0 <= s < SLOTS ==> !Free(State(), s)
      ensures slot.Some? ==>
                && Get(old(State()), parent).Some? && Free(old(State()), slot.value)
                && var child := Derived(Get(old(State()), parent).value, rights, badge);
                   child.Some? && State() == Placed(old(State()), slot.value, child.value, parent)
      ensures slot.None? <==> Refused(old(State()), parent, rights) || Exhausted(old(State()))
      ensures slot.Some? ==>
                && Copied(old(slots)[parent], old(State()), State(), slot.value, rights, badge, parent)
                && forall s :: 0 <= s < slot.value ==> !Free(old(State()), s)
    {
      hide SlotOk, Acyclic, CapOk, MayDerive, Derived, Refused, Exhausted;
      DerivedExactly(State(), parent, rights, badge);
      RoomExactly(State());
      var from := Get(Table(slots, parents, generations), parent);
      if from.None? {
        return None;
      }
      InSlot(State(), parent);
      var child := Derived(from.value, rights, badge);
      if child.None? {
        return None;
      }
      slot := ClaimSlot();
      if slot.Some? {
        PlacedOk(old(State()), slot.value, child.value, parent);
        slots, parents := slots[slot.value := child.value], parents[slot.value := parent];
      }
    }

    /** One pass of the revocation fixpoint. */
    method SpreadOnce(gone: set<nat>, ghost root: nat) returns (more: set<nat>, changed: bool)
      requires Shaped(State()) && forall s :: s in gone ==> s < SLOTS && Below(parents, root, s)
      ensures gone <= more && forall s :: s in more ==> s < SLOTS && Below(parents, root, s)
      ensures changed <==> more != gone
      ensures !changed ==> ClosedUp(parents, more)
    {
      hide Below;
      more, changed := gone, false;
      var child := 0;
      while child < SLOTS
        invariant 0 <= child <= SLOTS && gone <= more
        invariant forall s :: s in more ==> s < SLOTS && Below(parents, root, s)
        invariant changed <==> more != gone
        invariant !changed ==> forall s :: 0 <= s < child && parents[s] in gone ==> s in gone
      {
        if child !in more && parents[child] < SLOTS && parents[child] in more {
          ChildIsBelow(parents, root, child);
          more, changed := more + {child}, true;
        }
        child := child + 1;
      }
    }

    /** Empties a slot and exactly those derived from it. */
    method Revoke(slot: nat) returns (ok: bool)
      requires Valid()
      modifies this
      ensures Valid()
      ensures ok <==> Get(old(State()), slot).Some?
      ensures !ok ==> State() == old(State())
      ensures ok ==> generations == old(generations) && slot < SLOTS
                     && forall s :: 0 <= s < SLOTS ==>
                          Get(State(), s) == if Below(old(parents), slot, s) then None else Get(old(State()), s)
    {
      hide SlotOk, Acyclic, Below, MayDerive;
      if Get(Table(slots, parents, generations), slot).None? {
        return false;
      }
      InSlot(State(), slot);
      SelfIsBelow(parents, slot);
      var gone: set<nat> := {slot};
      var changed := true;
      while changed
        invariant State() == old(State()) && slot in gone && forall s :: s in gone ==> s < SLOTS && Below(parents, slot, s)
        invariant !changed ==> ClosedUp(parents, gone)
        decreases changed, SLOTS - |gone|
      {
        var before := gone;
        gone, changed := SpreadOnce(gone, slot);
        FewSlots(gone);
        if changed {
          Grew(before, gone);
        }
      }
      BelowExactly(parents, gone, slot);
      ClearedOk(State(), gone);
      EmptySlots(gone);
      ok := true;
    }

    method EmptySlots(gone: set<nat>)
      requires Shaped(State())
      modifies this`slots, this`parents
      ensures State() == Cleared(old(State()), gone)
    {
      var s := 0;
      while s < SLOTS
        invariant 0 <= s <= SLOTS && |slots| == |parents| == SLOTS
        invariant forall k :: 0 <= k < s ==> slots[k] == Cleared(old(State()), gone).slots[k]
                                             && parents[k] == Cleared(old(State()), gone).parents[k]
        invariant forall k :: s <= k < SLOTS ==> slots[k] == old(slots)[k] && parents[k] == old(parents)[k]
      {
        if s in gone {
          slots, parents := slots[s := NO_CAP], parents[s := NONE];
        }
        s := s + 1;
      }
      assert slots == Cleared(old(State()), gone).slots && parents == Cleared(old(State()), gone).parents;
    }
  }

  lemma InSlot(t: Table, s: nat)
    requires Shaped(t) && Get(t, s).Some?
    ensures s < SLOTS && Get(t, s).value == t.slots[s]
  {
  }

  lemma SelfIsBelow(parents: seq<nat>, s: nat)
    requires |parents| == SLOTS
    ensures Below(parents, s, s)
  {
    assert Up(parents, s, 0) == Some(s);
  }

  lemma BelowExactly(parents: seq<nat>, gone: set<nat>, root: nat)
    requires |parents| == SLOTS && ClosedUp(parents, gone) && root in gone
    requires forall s :: s in gone ==> s < SLOTS && Below(parents, root, s)
    ensures forall s :: 0 <= s < SLOTS ==> (s in gone <==> Below(parents, root, s))
  {
    forall s: nat | s < SLOTS && Below(parents, root, s)
      ensures s in gone
    {
      var n: nat :| Up(parents, s, n) == Some(root);
      ClosedHasAll(parents, gone, root, s, n);
    }
  }

  lemma Grew(before: set<nat>, after: set<nat>)
    requires before <= after && before != after
    ensures |before| < |after|
  {
    assert after == before + (after - before);
    assert after - before != {};
  }

  ghost function Upto(n: nat): (all: set<nat>)
    ensures |all| == n && forall s: nat :: s in all <==> s < n
  {
    if n == 0 then {} else Upto(n - 1) + {n - 1}
  }

  lemma FewSlots(gone: set<nat>)
    requires forall s :: s in gone ==> s < SLOTS
    ensures |gone| <= SLOTS
  {
    var all := Upto(SLOTS);
    assert gone <= all;
    if gone != all {
      Grew(gone, all);
    }
  }
}
