/**
 * The capability domain: every component's slot table and mailbox, tied together by one
 * derivation forest. A state is well-formed when the local parent links and the forest agree.
 */
module Domains {
  import opened ObjectIds
  import opened CapTables
  import opened Mailboxes
  import D = Derivations

  const COMPONENT_MAX: nat := 4

  type Ref = D.Ref
  type Edge = D.Edge

  datatype Member = Member(root: ObjectId, table: Slots, mailbox: seq<Byte>, exited: bool)

  type Items = seq<Option<Member>>

  function RefOf(m: Member, s: nat): Ref
    requires s < CapTables.SLOTS
  {
    D.Ref(m.root, s, m.table.generations[s])
  }

  /** What a reference denotes in the component it names. */
  function SlotAt(m: Member, r: Ref): Option<Cap> {
    if D.RefOk(r) && m.table.generations[r.slot] == r.generation then Get(m.table, r.slot) else None
  }

  function Find(items: Items, root: ObjectId): (i: Option<nat>)
    ensures i.Some? ==> i.value < |items| && items[i.value].Some? && items[i.value].value.root == root
    ensures i.None? ==> forall k :: 0 <= k < |items| && items[k].Some? ==> items[k].value.root != root
  {
    if items == [] then None
    else if items[0].Some? && items[0].value.root == root then Some(0)
    else
      var rest := Find(items[1..], root);
      if rest.None? then None else Some(rest.value + 1)
  }

  function Lookup(items: Items, r: Ref): Option<Cap> {
    var i := Find(items, r.component);
    if i.None? then None else SlotAt(items[i.value].value, r)
  }

  /** A reference into a fenced component denotes nothing. */
  function Resolve(items: Items, fenced: set<ObjectId>, r: Ref): Option<Cap> {
    if r.component in fenced then None else Lookup(items, r)
  }

  // ---- Well-formed states ----------------------------------------------------------------------

  ghost predicate Distinct(items: Items) {
    forall i, j :: 0 <= i < j < |items| && items[i].Some? && items[j].Some? ==> items[i].value.root != items[j].value.root
  }

  /** No queued letter carries a slot that holds nothing. */
  ghost predicate AttachmentsOk(m: Member)
    requires IsMailbox(m.mailbox)
  {
    forall f :: f in Letters(m.mailbox) ==> f.slot == NO_SLOT || Get(m.table, f.slot).Some?
  }

  ghost predicate MemberOk(m: Member) {
    !IsZero(m.root) && TableOk(m.table) && IsMailbox(m.mailbox) && AttachmentsOk(m)
  }

  ghost predicate MembersOk(items: Items) {
    forall i :: 0 <= i < |items| && items[i].Some? ==> MemberOk(items[i].value)
  }

  /** Both ends are live and the child is no stronger than the parent, which may grant. */
  ghost predicate EdgeOk(items: Items, e: Edge) {
    && Lookup(items, e.parent).Some? && Lookup(items, e.child).Some?
    && MayDerive(Lookup(items, e.parent).value, Lookup(items, e.child).value)
  }

  ghost predicate EdgesOk(items: Items, lineage: seq<Edge>) {
    forall e :: e in lineage ==> EdgeOk(items, e)
  }

  /** The local parent link says what the forest says about parents in the same component. */
  ghost predicate LinkOk(lineage: seq<Edge>, m: Member, s: nat)
    requires s < CapTables.SLOTS
  {
    var p, q := m.table.parents[s], D.ParentOf(lineage, RefOf(m, s));
    && (p != NONE ==> p < CapTables.SLOTS && q == Some(RefOf(m, p)))
    && (q.Some? && q.value.component == m.root ==> p == q.value.slot)
  }

  ghost predicate LinksOk(lineage: seq<Edge>, m: Member) {
    forall s :: 0 <= s < CapTables.SLOTS ==> LinkOk(lineage, m, s)
  }

  ghost predicate AllLinksOk(items: Items, lineage: seq<Edge>) {
    forall i :: 0 <= i < |items| && items[i].Some? ==> LinksOk(lineage, items[i].value)
  }

  ghost predicate DomainOk(items: Items, lineage: seq<Edge>) {
    && |items| == COMPONENT_MAX && Distinct(items) && MembersOk(items)
    && D.Forest(lineage) && EdgesOk(items, lineage) && AllLinksOk(items, lineage)
  }

  // ---- Ancestors bound their descendants ---------------------------------------------------------

  lemma ParentBounds(items: Items, lineage: seq<Edge>, r: Ref)
    requires EdgesOk(items, lineage) && D.ParentOf(lineage, r).Some?
    ensures var p := D.ParentOf(lineage, r).value;
            && Lookup(items, r).Some? && Lookup(items, p).Some? && MayDerive(Lookup(items, p).value, Lookup(items, r).value)
  {
    hide Lookup, MayDerive;
    var e := lineage[D.IndexOf(lineage, r).value];
    assert e in lineage && EdgeOk(items, e);
  }

  /** Along every lineage path the object is constant and rights only shrink. */
  lemma {:induction false} RightsShrink(items: Items, lineage: seq<Edge>, r: Ref, n: nat)
    requires DomainOk(items, lineage) && n > 0 && D.Up(lineage, r, n).Some?
    ensures var a := D.Up(lineage, r, n).value;
            && a != r && Lookup(items, r).Some? && Lookup(items, a).Some?
            && MayDerive(Lookup(items, a).value, Lookup(items, r).value)
    decreases n
  {
    hide Lookup, MembersOk, AllLinksOk, EdgesOk, Distinct, D.ParentOf;
    var p := D.ParentOf(lineage, r);
    ParentBounds(items, lineage, r);
    if n > 1 {
      RightsShrink(items, lineage, p.value, n - 1);
      var a := D.Up(lineage, p.value, n - 1).value;
      WithinIsTransitive(Lookup(items, r).value.rights, Lookup(items, p.value).value.rights, Lookup(items, a).value.rights);
    } else {
      assert D.Up(lineage, p.value, 0) == p;
    }
  }

  // ---- Updating one member ---------------------------------------------------------------------

  lemma FindAt(items: Items, i: nat)
    requires Distinct(items) && i < |items| && items[i].Some?
    ensures Find(items, items[i].value.root) == Some(i)
  {
    var k := Find(items, items[i].value.root);
    assert k.Some? && (k.value < i || i < k.value || k.value == i);
  }

  lemma LookupAt(items: Items, i: nat, r: Ref)
    requires Distinct(items) && i < |items| && items[i].Some? && r.component == items[i].value.root
    ensures Lookup(items, r) == SlotAt(items[i].value, r)
  {
    hide Distinct, SlotAt;
    FindAt(items, i);
  }

  lemma UpdatedLookup(items: Items, j: nat, m: Member, r: Ref)
    requires Distinct(items) && j < |items| && items[j].Some? && m.root == items[j].value.root
    ensures Distinct(items[j := Some(m)])
    ensures Lookup(items[j := Some(m)], r) == if r.component == m.root then SlotAt(m, r) else Lookup(items, r)
  {
    hide SlotAt;
    var after := items[j := Some(m)];
    assert Distinct(after);
    if r.component == m.root {
      LookupAt(after, j, r);
    } else {
      var k := Find(items, r.component);
      if k.Some? {
        assert k.value != j && after[k.value] == items[k.value];
        LookupAt(items, k.value, r);
        LookupAt(after, k.value, r);
      }
    }
  }

  // ---- Granting --------------------------------------------------------------------------------

  /** The receiver with the capability in a free slot. */
  function Endowed(m: Member, child: nat, c: Cap, parent: nat): Member
    requires child < CapTables.SLOTS
  {
    m.(table := Placed(m.table, child, c, parent))
  }

  lemma EndowedSlot(m: Member, child: nat, c: Cap, parent: nat, r: Ref)
    requires Free(m.table, child) && CapOk(c) && !IsZero(m.root) && r.component == m.root
    ensures SlotAt(Endowed(m, child, c, parent), r) ==
            if r == RefOf(Endowed(m, child, c, parent), child) then Some(c) else SlotAt(m, r)
    ensures SlotAt(m, RefOf(Endowed(m, child, c, parent), child)) == None
  {
  }

  lemma EndowedOk(m: Member, child: nat, c: Cap, parent: nat)
    requires MemberOk(m) && Free(m.table, child) && CapOk(c)
    requires parent == NONE || (parent < CapTables.SLOTS && Get(m.table, parent).Some? && MayDerive(m.table.slots[parent], c))
    ensures MemberOk(Endowed(m, child, c, parent))
    ensures Get(Endowed(m, child, c, parent).table, child) == Some(c)
  {
    hide TableOk, MayDerive, IsMailbox, Get, CapOk;
    PlacedOk(m.table, child, c, parent);
    var after := Endowed(m, child, c, parent);
    forall f | f in Letters(m.mailbox)
      ensures f.slot == NO_SLOT || Get(after.table, f.slot).Some?
    {
      assert f.slot == NO_SLOT || f.slot < Mailboxes.SLOTS;
    }
  }

  /** A slot just filled is a reference no edge mentions. */
  lemma NoEdgeYet(items: Items, lineage: seq<Edge>, r: Ref)
    requires EdgesOk(items, lineage) && Lookup(items, r).None?
    ensures forall i :: 0 <= i < |lineage| ==> lineage[i].parent != r && lineage[i].child != r
  {
    hide Lookup, MayDerive;
    forall i | 0 <= i < |lineage|
      ensures lineage[i].parent != r && lineage[i].child != r
    {
      assert lineage[i] in lineage && EdgeOk(items, lineage[i]);
    }
  }

  lemma {:induction false} AppendedIndex(edges: seq<Edge>, e: Edge, r: Ref)
    ensures D.IndexOf(edges + [e], r) == if D.IndexOf(edges, r).Some? then D.IndexOf(edges, r)
                                         else if r == e.child then Some(|edges|) else None
  {
    if edges == [] {
      assert [e][1..] == [];
      assert D.IndexOf([], r) == None;
    } else {
      assert (edges + [e])[1..] == edges[1..] + [e];
      AppendedIndex(edges[1..], e, r);
    }
  }

  lemma AppendedParent(edges: seq<Edge>, e: Edge, r: Ref)
    requires forall i :: 0 <= i < |edges| ==> edges[i].child != e.child
    ensures D.ParentOf(edges + [e], r) == if r == e.child then Some(e.parent) else D.ParentOf(edges, r)
  {
    AppendedIndex(edges, e, r);
  }

  lemma {:induction false} AppendedUp(edges: seq<Edge>, e: Edge, r: Ref, n: nat)
    requires forall i :: 0 <= i < |edges| ==> edges[i].child != e.child && edges[i].parent != e.child
    requires r != e.child && e.parent != e.child
    ensures D.Up(edges + [e], r, n) == D.Up(edges, r, n) && D.Up(edges, r, n) != Some(e.child)
    decreases n
  {
    hide D.ParentOf;
    if n > 0 {
      AppendedParent(edges, e, r);
      var p := D.ParentOf(edges, r);
      D.IndexInRange(edges, r);
      if p.Some? {
        AppendedUp(edges, e, p.value, n - 1);
      }
    }
  }

  /** Hanging a new leaf keeps the forest. */
  lemma LeafKeepsForest(edges: seq<Edge>, e: Edge)
    requires D.Forest(edges) && |edges| < D.DERIVATION_MAX && D.RefOk(e.parent) && D.RefOk(e.child) && e.parent != e.child
    requires forall i :: 0 <= i < |edges| ==> edges[i].child != e.child && edges[i].parent != e.child
    ensures D.Forest(edges + [e])
  {
    hide D.ParentOf, D.RefOk;
    forall r: Ref, n: nat | n > 0
      ensures D.Up(edges + [e], r, n) != Some(r)
    {
      if r == e.child {
        AppendedParent(edges, e, r);
        AppendedUp(edges, e, e.parent, n - 1);
      } else {
        AppendedUp(edges, e, r, n);
      }
    }
  }

  /** The edge and the state after sender `i` grants from slot `s` into slot `child` of receiver `j`. */
  function GrantEdge(items: Items, i: nat, s: nat, j: nat, child: nat): Edge
    requires i < |items| && j < |items| && items[i].Some? && items[j].Some? && s < CapTables.SLOTS && child < CapTables.SLOTS
  {
    D.Edge(RefOf(items[i].value, s), D.Ref(items[j].value.root, child, items[j].value.table.generations[child] + 1))
  }

  function Granted(items: Items, i: nat, s: nat, j: nat, child: nat, c: Cap): Items
    requires i < |items| && j < |items| && items[j].Some? && child < CapTables.SLOTS
  {
    items[j := Some(Endowed(items[j].value, child, c, if i == j then s else NONE))]
  }

  ghost predicate MayGrant(items: Items, lineage: seq<Edge>, i: nat, s: nat, j: nat, child: nat, c: Cap) {
    && DomainOk(items, lineage) && i < |items| && j < |items| && items[i].Some? && items[j].Some?
    && s < CapTables.SLOTS && Free(items[j].value.table, child) && CapOk(c)
    && Get(items[i].value.table, s).Some? && MayDerive(Get(items[i].value.table, s).value, c)
  }

  /** A grant adds one denotation and changes no other. */
  lemma GrantedLookup(items: Items, lineage: seq<Edge>, i: nat, s: nat, j: nat, child: nat, c: Cap, r: Ref)
    requires MayGrant(items, lineage, i, s, j, child, c)
    ensures Distinct(Granted(items, i, s, j, child, c))
    ensures var fresh' := GrantEdge(items, i, s, j, child).child;
            && Lookup(items, fresh') == None
            && Lookup(Granted(items, i, s, j, child, c), r) == if r == fresh' then Some(c) else Lookup(items, r)
  {
    hide Lookup, SlotAt, CapOk, MayDerive, EdgesOk, AllLinksOk, Distinct, TableOk, Get;
    var m := items[j].value;
    var parent := if i == j then s else NONE;
    var after := Endowed(m, child, c, parent);
    var fresh' := GrantEdge(items, i, s, j, child).child;
    assert MemberOk(m);
    UpdatedLookup(items, j, after, r);
    EndowedSlot(m, child, c, parent, fresh');
    LookupAt(items, j, fresh');
    if r.component == m.root {
      EndowedSlot(m, child, c, parent, r);
      LookupAt(items, j, r);
    }
  }

  lemma GrantEdgeOk(items: Items, lineage: seq<Edge>, i: nat, s: nat, j: nat, child: nat, c: Cap)
    requires MayGrant(items, lineage, i, s, j, child, c)
    ensures EdgeOk(Granted(items, i, s, j, child, c), GrantEdge(items, i, s, j, child))
    ensures Lookup(items, GrantEdge(items, i, s, j, child).parent) == Get(items[i].value.table, s)
    ensures var e := GrantEdge(items, i, s, j, child); D.RefOk(e.parent) && D.RefOk(e.child) && e.parent != e.child
  {
    hide Lookup, MayDerive, EdgesOk, AllLinksOk, Distinct, TableOk;
    var e := GrantEdge(items, i, s, j, child);
    assert MemberOk(items[i].value) && MemberOk(items[j].value);
    LookupAt(items, i, e.parent);
    GrantedLookup(items, lineage, i, s, j, child, c, e.parent);
    GrantedLookup(items, lineage, i, s, j, child, c, e.child);
  }

  lemma GrantedEdges(items: Items, lineage: seq<Edge>, i: nat, s: nat, j: nat, child: nat, c: Cap)
    requires MayGrant(items, lineage, i, s, j, child, c)
    ensures var e := GrantEdge(items, i, s, j, child);
            && EdgesOk(Granted(items, i, s, j, child, c), lineage + [e])
            && (|lineage| < D.DERIVATION_MAX <==> D.Forest(lineage + [e]))
            && forall k :: 0 <= k < |lineage| ==> lineage[k].parent != e.child && lineage[k].child != e.child
  {
    hide Lookup, MayDerive, AllLinksOk, Distinct, MembersOk, CapOk, Get, D.Acyclic, D.RefOk, D.UniqueChildren;
    var e := GrantEdge(items, i, s, j, child);
    var after := Granted(items, i, s, j, child, c);
    GrantEdgeOk(items, lineage, i, s, j, child, c);
    GrantedLookup(items, lineage, i, s, j, child, c, e.child);
    NoEdgeYet(items, lineage, e.child);
    if |lineage| < D.DERIVATION_MAX {
      LeafKeepsForest(lineage, e);
    }
    forall x | x in lineage
      ensures EdgeOk(after, x)
    {
      assert EdgeOk(items, x);
      GrantedLookup(items, lineage, i, s, j, child, c, x.parent);
      GrantedLookup(items, lineage, i, s, j, child, c, x.child);
    }
  }

  lemma GrantedLinks(items: Items, lineage: seq<Edge>, i: nat, s: nat, j: nat, child: nat, c: Cap, k: nat)
    requires MayGrant(items, lineage, i, s, j, child, c) && k < |items| && items[k].Some?
    ensures LinksOk(lineage + [GrantEdge(items, i, s, j, child)], Granted(items, i, s, j, child, c)[k].value)
  {
    hide Lookup, MayDerive, EdgesOk, MembersOk, D.Forest, D.ParentOf, CapOk;
    var e := GrantEdge(items, i, s, j, child);
    var m := Granted(items, i, s, j, child, c)[k].value;
    GrantedEdges(items, lineage, i, s, j, child, c);
    forall x | 0 <= x < CapTables.SLOTS
      ensures LinkOk(lineage + [e], m, x)
    {
      AppendedParent(lineage, e, RefOf(m, x));
      assert LinksOk(lineage, items[k].value) && LinkOk(lineage, items[k].value, x);
      FreeIsNoParent(items, lineage, j, child, x);
    }
  }

  /** No slot hangs below an empty one, and the sender's slot is not empty. */
  lemma FreeIsNoParent(items: Items, lineage: seq<Edge>, j: nat, child: nat, x: nat)
    requires DomainOk(items, lineage) && j < |items| && items[j].Some? && Free(items[j].value.table, child) && x < CapTables.SLOTS
    ensures items[j].value.table.parents[x] != child && Get(items[j].value.table, child).None?
  {
    hide Lookup, MayDerive, EdgesOk, D.Forest, AllLinksOk, Distinct, Acyclic;
    assert MemberOk(items[j].value) && SlotOk(items[j].value.table, x);
  }

  /** Granting a derived capability keeps the domain well-formed. */
  lemma GrantKeeps(items: Items, lineage: seq<Edge>, i: nat, s: nat, j: nat, child: nat, c: Cap)
    requires MayGrant(items, lineage, i, s, j, child, c) && |lineage| < D.DERIVATION_MAX
    ensures DomainOk(Granted(items, i, s, j, child, c), lineage + [GrantEdge(items, i, s, j, child)])
    ensures Get(Granted(items, i, s, j, child, c)[j].value.table, child) == Some(c)
  {
    hide Lookup, MayDerive, EdgesOk, LinksOk, MemberOk, D.Forest, CapOk, Distinct;
    var e := GrantEdge(items, i, s, j, child);
    var after := Granted(items, i, s, j, child, c);
    GrantedEdges(items, lineage, i, s, j, child, c);
    GrantedLookup(items, lineage, i, s, j, child, c, e.child);
    SameSlot(items[i].value.table, s);
    EndowedOk(items[j].value, child, c, if i == j then s else NONE);
    forall k | 0 <= k < |items| && items[k].Some?
      ensures LinksOk(lineage + [e], after[k].value)
    {
      GrantedLinks(items, lineage, i, s, j, child, c, k);
    }
  }

  lemma SameSlot(t: Slots, s: nat)
    ensures s < CapTables.SLOTS && Get(t, s).Some? ==> Get(t, s).value == t.slots[s]
  {
  }

  // ---- Revoking --------------------------------------------------------------------------------

  ghost function GoneSlots(m: Member, gone: seq<Ref>): (slots: set<nat>)
    ensures NO_SLOT !in slots
  {
    set s | 0 <= s < CapTables.SLOTS && RefOf(m, s) in gone
  }

  /** A member without the capabilities in `gone`: their slots empty, their attachments stripped. */
  ghost predicate Swept(before: Member, gone: seq<Ref>, after: Member)
    requires IsMailbox(before.mailbox)
  {
    var slots := GoneSlots(before, gone);
    && after.root == before.root && after.exited == before.exited
    && after.table == Cleared(before.table, slots)
    && IsMailbox(after.mailbox) && Letters(after.mailbox) == StripSet(Letters(before.mailbox), slots)
  }

  ghost predicate AllSwept(before: Items, gone: seq<Ref>, after: Items)
    requires MembersOk(before)
  {
    && |after| == |before|
    && forall i :: 0 <= i < |before| ==>
         && (after[i].Some? <==> before[i].Some?)
         && (before[i].Some? ==> Swept(before[i].value, gone, after[i].value))
  }

  /** Whoever is below a removed capability is removed too. */
  ghost predicate DownClosed(lineage: seq<Edge>, gone: seq<Ref>) {
    forall e :: e in lineage && e.parent in gone ==> e.child in gone
  }

  lemma SweptSlot(before: Member, gone: seq<Ref>, after: Member, r: Ref)
    requires IsMailbox(before.mailbox) && Swept(before, gone, after) && r.component == before.root
    ensures SlotAt(after, r) == if r in gone then None else SlotAt(before, r)
  {
    if D.RefOk(r) && before.table.generations[r.slot] == r.generation {
      assert r == RefOf(before, r.slot);
      assert r.slot in GoneSlots(before, gone) <==> r in gone;
    }
  }

  /** Exactly the removed references stop denoting something. */
  lemma SweptLookup(before: Items, gone: seq<Ref>, after: Items, r: Ref)
    requires Distinct(before) && MembersOk(before) && AllSwept(before, gone, after)
    ensures Distinct(after)
    ensures Lookup(after, r) == if r in gone then None else Lookup(before, r)
  {
    hide SlotAt, TableOk, AttachmentsOk;
    forall i | 0 <= i < |before| && before[i].Some?
      ensures after[i].Some? && after[i].value.root == before[i].value.root
    {
      assert Swept(before[i].value, gone, after[i].value);
    }
    assert Distinct(after);
    var k := Find(before, r.component);
    if k.Some? {
      LookupAt(before, k.value, r);
      LookupAt(after, k.value, r);
      assert MemberOk(before[k.value].value) && Swept(before[k.value].value, gone, after[k.value].value);
      SweptSlot(before[k.value].value, gone, after[k.value].value, r);
    }
  }

  /** A surviving slot's local parent survives. */
  lemma SlotsDownClosed(lineage: seq<Edge>, m: Member, gone: seq<Ref>, s: nat)
    requires LinksOk(lineage, m) && DownClosed(lineage, gone) && s < CapTables.SLOTS
    requires m.table.parents[s] in GoneSlots(m, gone)
    ensures s in GoneSlots(m, gone)
  {
    hide D.IndexOf;
    assert LinkOk(lineage, m, s);
    var e := lineage[D.IndexOf(lineage, RefOf(m, s)).value];
    assert e in lineage && e.parent in gone;
  }

  lemma SweptOk(lineage: seq<Edge>, before: Member, gone: seq<Ref>, after: Member)
    requires MemberOk(before) && LinksOk(lineage, before) && DownClosed(lineage, gone) && Swept(before, gone, after)
    ensures MemberOk(after)
  {
    hide LinksOk, DownClosed, IsMailbox, TableOk, Get;
    var slots := GoneSlots(before, gone);
    forall s | 0 <= s < CapTables.SLOTS && before.table.parents[s] in slots
      ensures s in slots
    {
      SlotsDownClosed(lineage, before, gone, s);
    }
    ClearedOk(before.table, slots);
    var was, now := Letters(before.mailbox), Letters(after.mailbox);
    forall f | f in now
      ensures f.slot == NO_SLOT || Get(after.table, f.slot).Some?
    {
      var i :| 0 <= i < |now| && now[i] == f;
      assert was[i] in was && (was[i].slot == NO_SLOT || was[i].slot < Mailboxes.SLOTS);
    }
  }

  lemma KeptParentExactly(lineage: seq<Edge>, gone: seq<Ref>, r: Ref)
    requires D.UniqueChildren(lineage)
    ensures D.ParentOf(D.Kept(lineage, gone), r) == if r in gone then None else D.ParentOf(lineage, r)
  {
    hide D.IndexOf, D.Kept;
    var kept := D.Kept(lineage, gone);
    D.KeptMeans(lineage, gone);
    D.KeptParent(lineage, kept, r);
    var was, now := D.IndexOf(lineage, r), D.IndexOf(kept, r);
    if now.Some? {
      assert kept[now.value] in kept;
    }
    if was.Some? && r !in gone {
      assert lineage[was.value] in kept;
      var i :| 0 <= i < |kept| && kept[i] == lineage[was.value];
    }
  }

  lemma SweptLinks(lineage: seq<Edge>, before: Member, gone: seq<Ref>, after: Member)
    requires MemberOk(before) && LinksOk(lineage, before) && DownClosed(lineage, gone) && Swept(before, gone, after)
    requires D.UniqueChildren(lineage)
    ensures LinksOk(D.Kept(lineage, gone), after)
  {
    hide D.ParentOf, D.UniqueChildren, DownClosed, MemberOk, D.Kept;
    forall s | 0 <= s < CapTables.SLOTS
      ensures LinkOk(D.Kept(lineage, gone), after, s)
    {
      assert LinkOk(lineage, before, s);
      KeptParentExactly(lineage, gone, RefOf(before, s));
      assert s in GoneSlots(before, gone) <==> RefOf(before, s) in gone;
    }
  }

  lemma SweptEdges(before: Items, lineage: seq<Edge>, gone: seq<Ref>, after: Items)
    requires Distinct(before) && MembersOk(before) && EdgesOk(before, lineage)
    requires DownClosed(lineage, gone) && AllSwept(before, gone, after)
    ensures EdgesOk(after, D.Kept(lineage, gone))
  {
    hide Lookup, Distinct, MembersOk, AllSwept, MayDerive, D.Kept;
    D.KeptMeans(lineage, gone);
    forall e | e in D.Kept(lineage, gone)
      ensures EdgeOk(after, e)
    {
      assert EdgeOk(before, e);
      SweptLookup(before, gone, after, e.parent);
      SweptLookup(before, gone, after, e.child);
    }
  }

  /** Removing a capability with everything below it keeps the domain well-formed. */
  lemma SweepKeeps(before: Items, lineage: seq<Edge>, gone: seq<Ref>, after: Items)
    requires DomainOk(before, lineage) && DownClosed(lineage, gone) && AllSwept(before, gone, after)
    ensures DomainOk(after, D.Kept(lineage, gone))
  {
    hide Lookup, Distinct, MemberOk, DownClosed, EdgesOk, LinksOk, Swept, D.Kept, D.Acyclic, D.RefsOk, D.UniqueChildren;
    D.KeptForest(lineage, gone);
    SweptEdges(before, lineage, gone, after);
    SweptLookup(before, gone, after, D.ZERO_REF);
    forall i | 0 <= i < |after| && after[i].Some?
      ensures MemberOk(after[i].value) && LinksOk(D.Kept(lineage, gone), after[i].value)
    {
      SweptMember(before, lineage, gone, after, i);
    }
  }

  lemma SweptMember(before: Items, lineage: seq<Edge>, gone: seq<Ref>, after: Items, i: nat)
    requires DomainOk(before, lineage) && DownClosed(lineage, gone) && AllSwept(before, gone, after)
    requires i < |before| && before[i].Some?
    ensures MemberOk(after[i].value) && LinksOk(D.Kept(lineage, gone), after[i].value)
  {
    hide Lookup, Distinct, DownClosed, EdgesOk, LinksOk, Swept, D.Kept, D.Acyclic, D.RefsOk, D.UniqueChildren;
    assert MemberOk(before[i].value);
    SweptOk(lineage, before[i].value, gone, after[i].value);
    SweptLinks(lineage, before[i].value, gone, after[i].value);
  }

  /** The subtree of a reference is closed downwards. */
  lemma SubtreeClosed(lineage: seq<Edge>, root: Ref, gone: seq<Ref>)
    requires D.UniqueChildren(lineage)
    requires forall r :: r in gone <==> r == root || D.Descends(lineage, root, r)
    ensures DownClosed(lineage, gone)
  {
    hide D.Descends, D.UniqueChildren;
    forall e | e in lineage && e.parent in gone
      ensures e.child in gone
    {
      var i :| 0 <= i < |lineage| && lineage[i] == e;
      D.ChildDescends(lineage, root, i);
    }
  }

  /** One more capability removed from its owner. */
  lemma SweptMore(before: Member, gone: seq<Ref>, mid: Member, s: nat, after: Member)
    requires IsMailbox(before.mailbox) && Swept(before, gone, mid) && s < CapTables.SLOTS
    requires after.root == mid.root && after.exited == mid.exited && after.table == Cleared(mid.table, {s})
    requires IsMailbox(after.mailbox) && Letters(after.mailbox) == StripAll(Letters(mid.mailbox), s)
    ensures Swept(before, gone + [RefOf(before, s)], after)
  {
    hide IsMailbox;
    var slots := GoneSlots(before, gone);
    assert GoneSlots(before, gone + [RefOf(before, s)]) == slots + {s};
    StripOneMore(Letters(before.mailbox), slots, s);
    assert Cleared(Cleared(before.table, slots), {s}) == Cleared(before.table, slots + {s});
  }

  lemma SweptElsewhere(before: Member, gone: seq<Ref>, r: Ref, after: Member)
    requires IsMailbox(before.mailbox) && Swept(before, gone, after) && r.component != before.root
    ensures Swept(before, gone + [r], after)
  {
    assert GoneSlots(before, gone + [r]) == GoneSlots(before, gone);
  }

  lemma SweptNothing(items: Items)
    requires MembersOk(items)
    ensures AllSwept(items, [], items)
  {
    hide TableOk, AttachmentsOk, IsMailbox;
    forall i | 0 <= i < |items| && items[i].Some?
      ensures Swept(items[i].value, [], items[i].value)
    {
      var m := items[i].value;
      assert MemberOk(m);
      assert GoneSlots(m, []) == {};
      StripNothing(Letters(m.mailbox));
      assert Cleared(m.table, {}).slots == m.table.slots && Cleared(m.table, {}).parents == m.table.parents;
    }
  }

  /** Queueing a letter whose attachment is live touches nothing else. */
  lemma MailKeeps(items: Items, lineage: seq<Edge>, j: nat, mailbox: seq<Byte>)
    requires DomainOk(items, lineage) && j < |items| && items[j].Some? && IsMailbox(mailbox)
    requires AttachmentsOk(items[j].value.(mailbox := mailbox))
    ensures DomainOk(items[j := Some(items[j].value.(mailbox := mailbox))], lineage)
    ensures Follows(items, items[j := Some(items[j].value.(mailbox := mailbox))])
  {
    hide Lookup, MayDerive, SlotAt, Distinct, TableOk, AttachmentsOk, IsMailbox, D.Forest, D.ParentOf;
    var m := items[j].value.(mailbox := mailbox);
    var after := items[j := Some(m)];
    forall e | e in lineage
      ensures EdgeOk(after, e)
    {
      assert EdgeOk(items, e);
      MailLookup(items, j, mailbox, e.parent);
      MailLookup(items, j, mailbox, e.child);
    }
    MailLookup(items, j, mailbox, D.ZERO_REF);
    assert MemberOk(items[j].value) && MemberOk(m);
    assert LinksOk(lineage, m) by {
      assert LinksOk(lineage, items[j].value);
      forall s | 0 <= s < CapTables.SLOTS
        ensures LinkOk(lineage, m, s)
      {
        assert LinkOk(lineage, items[j].value, s);
      }
    }
  }

  lemma MailLookup(items: Items, j: nat, mailbox: seq<Byte>, r: Ref)
    requires Distinct(items) && j < |items| && items[j].Some?
    ensures Distinct(items[j := Some(items[j].value.(mailbox := mailbox))])
    ensures Lookup(items[j := Some(items[j].value.(mailbox := mailbox))], r) == Lookup(items, r)
  {
    hide Distinct, Lookup;
    UpdatedLookup(items, j, items[j].value.(mailbox := mailbox), r);
    if r.component == items[j].value.root {
      LookupAt(items, j, r);
    }
  }

  // ---- References last -------------------------------------------------------------------------

  /** A slot keeps its content or loses it until its generation moves on. */
  ghost predicate SlotFollows(a: Slots, b: Slots, s: nat)
    requires s < CapTables.SLOTS
  {
    && a.generations[s] <= b.generations[s]
    && (a.generations[s] == b.generations[s] ==> Get(b, s).None? || Get(b, s) == Get(a, s))
  }

  ghost predicate TableFollows(a: Slots, b: Slots) {
    forall s :: 0 <= s < CapTables.SLOTS ==> SlotFollows(a, b, s)
  }

  ghost predicate Follows(a: Items, b: Items) {
    && |a| == |b|
    && forall i :: 0 <= i < |a| ==>
         && (a[i].Some? <==> b[i].Some?)
         && (a[i].Some? ==> a[i].value.root == b[i].value.root && TableFollows(a[i].value.table, b[i].value.table))
  }

  lemma TableFollowsOn(a: Slots, b: Slots, c: Slots)
    requires TableFollows(a, b) && TableFollows(b, c)
    ensures TableFollows(a, c)
  {
    hide Get;
    forall s | 0 <= s < CapTables.SLOTS
      ensures SlotFollows(a, c, s)
    {
      assert SlotFollows(a, b, s) && SlotFollows(b, c, s);
    }
  }

  lemma FollowsOn(a: Items, b: Items, c: Items)
    requires Follows(a, b) && Follows(b, c)
    ensures Follows(a, c)
  {
    hide TableFollows;
    forall i | 0 <= i < |a| && a[i].Some?
      ensures TableFollows(a[i].value.table, c[i].value.table)
    {
      TableFollowsOn(a[i].value.table, b[i].value.table, c[i].value.table);
    }
  }

  lemma FollowsSelf(a: Items)
    ensures Follows(a, a)
  {
  }

  /** Has this reference's generation been reached? */
  ghost predicate Issued(items: Items, r: Ref) {
    var i := Find(items, r.component);
    D.RefOk(r) && i.Some? && r.generation <= items[i.value].value.table.generations[r.slot]
  }

  /** A reference once issued never comes to denote anything it did not denote before. */
  lemma IssuedStays(a: Items, b: Items, r: Ref)
    requires Distinct(a) && Distinct(b) && Follows(a, b)
    ensures Issued(a, r) ==> Issued(b, r) && (Lookup(b, r).None? || Lookup(b, r) == Lookup(a, r))
    ensures Lookup(a, r).Some? ==> Issued(a, r)
  {
    hide Get;
    var k := Find(a, r.component);
    if k.Some? {
      LookupAt(a, k.value, r);
      LookupAt(b, k.value, r);
      FindAt(b, k.value);
      if D.RefOk(r) {
        assert SlotFollows(a[k.value].value.table, b[k.value].value.table, r.slot);
      }
    }
  }

  ghost predicate Chronicle(states: seq<Items>) {
    && (forall i :: 0 <= i < |states| ==> Distinct(states[i]))
    && forall i :: 0 < i < |states| ==> Follows(states[i - 1], states[i])
  }

  lemma {:induction false} ChronicleFollows(states: seq<Items>, i: nat, j: nat)
    requires Chronicle(states) && i <= j < |states|
    ensures Follows(states[i], states[j])
    decreases j - i
  {
    hide Follows, Distinct;
    if i == j {
      FollowsSelf(states[i]);
    } else {
      ChronicleFollows(states, i, j - 1);
      assert Follows(states[j - 1], states[j]);
      FollowsOn(states[i], states[j - 1], states[j]);
    }
  }

  /**
   * Across successive states a reference never denotes two capabilities, and one that was
   * revoked in between stays dead.
   */
  lemma ReferenceIsForever(states: seq<Items>, i: nat, j: nat, k: nat, r: Ref)
    requires Chronicle(states) && i <= j <= k < |states| && Lookup(states[i], r).Some? && Lookup(states[k], r).Some?
    ensures Lookup(states[j], r) == Lookup(states[i], r) == Lookup(states[k], r)
  {
    hide Follows, Distinct, Lookup;
    assert Distinct(states[i]) && Distinct(states[j]) && Distinct(states[k]);
    ChronicleFollows(states, i, j);
    ChronicleFollows(states, j, k);
    IssuedStays(states[i], states[j], r);
    IssuedStays(states[j], states[k], r);
  }

  lemma GrantFollows(items: Items, i: nat, s: nat, j: nat, child: nat, c: Cap)
    requires i < |items| && j < |items| && items[j].Some? && Free(items[j].value.table, child)
    ensures Follows(items, Granted(items, i, s, j, child, c))
  {
    var t, t' := items[j].value.table, Granted(items, i, s, j, child, c)[j].value.table;
    forall x | 0 <= x < CapTables.SLOTS
      ensures SlotFollows(t, t', x)
    {
    }
  }

  lemma SweepFollows(before: Items, gone: seq<Ref>, after: Items)
    requires MembersOk(before) && AllSwept(before, gone, after)
    ensures Follows(before, after)
  {
    hide TableOk, AttachmentsOk, TableFollows;
    forall i | 0 <= i < |before| && before[i].Some?
      ensures before[i].value.root == after[i].value.root && TableFollows(before[i].value.table, after[i].value.table)
    {
      assert MemberOk(before[i].value) && Swept(before[i].value, gone, after[i].value);
      ClearedFollows(before[i].value.table, GoneSlots(before[i].value, gone));
    }
  }

  lemma ClearedFollows(t: Slots, gone: set<nat>)
    ensures TableFollows(t, Cleared(t, gone))
  {
  }
}
