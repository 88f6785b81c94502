/** The capability domain in place: transactions over all tables, mailboxes and the forest at once. */
module CapabilityDomains {
  import opened ObjectIds
  import opened CapTables
  import opened Mailboxes
  import opened Domains
  import D = Derivations

  const BATCH_MAX: nat := 8
  const LETTER_MAX: nat := 4096

  datatype Failure = Invalid | Forbidden | Full | Missing

  datatype Reply = Done(slot: nat) | Failed(why: Failure)

  /** What the store reports for a batch, and whether an uncertain one took effect. */
  datatype Outcome = Committed | Rejected | Uncertain(landed: bool)

  /** What the store holds for the domain. */
  datatype Disk = Disk(tables: seq<Option<Slots>>, mail: seq<Option<seq<Byte>>>, lineage: seq<Edge>,
                       contents: map<ObjectId, seq<Byte>>)

  datatype Staged = Staged(id: ObjectId, payload: seq<Byte>)

  // ---- Staged writes ----------------------------------------------------------------------------

  ghost function Overlay(base: map<ObjectId, seq<Byte>>, writes: seq<Staged>): map<ObjectId, seq<Byte>> {
    if writes == [] then base
    else
      var last := writes[|writes| - 1];
      Overlay(base, writes[..|writes| - 1])[last.id := last.payload]
  }

  ghost predicate DistinctIds(writes: seq<Staged>) {
    forall i, j :: 0 <= i < j < |writes| ==> writes[i].id != writes[j].id
  }

  lemma {:induction false} OverlayMisses(base: map<ObjectId, seq<Byte>>, writes: seq<Staged>, id: ObjectId)
    requires forall i :: 0 <= i < |writes| ==> writes[i].id != id
    ensures id in Overlay(base, writes) <==> id in base
    ensures id in base ==> Overlay(base, writes)[id] == base[id]
    decreases |writes|
  {
    if writes != [] {
      OverlayMisses(base, writes[..|writes| - 1], id);
    }
  }

  /** A staged write is what a read inside the transaction returns. */
  lemma {:induction false} OverlayHits(base: map<ObjectId, seq<Byte>>, writes: seq<Staged>, i: nat)
    requires DistinctIds(writes) && i < |writes|
    ensures writes[i].id in Overlay(base, writes) && Overlay(base, writes)[writes[i].id] == writes[i].payload
    decreases |writes|
  {
    if i < |writes| - 1 {
      OverlayHits(base, writes[..|writes| - 1], i);
    }
  }

  lemma {:induction false} OverlayReplaces(base: map<ObjectId, seq<Byte>>, writes: seq<Staged>, i: nat, w: Staged)
    requires DistinctIds(writes) && i < |writes| && writes[i].id == w.id
    ensures Overlay(base, writes[i := w]) == Overlay(base, writes)[w.id := w.payload]
    decreases |writes|
  {
    var n := |writes| - 1;
    if i == n {
      assert writes[i := w][..n] == writes[..n];
    } else {
      assert writes[i := w][..n] == writes[..n][i := w];
      OverlayReplaces(base, writes[..n], i, w);
    }
  }

  method FindWrite(writes: seq<Staged>, id: ObjectId) returns (i: nat)
    ensures i <= |writes| && (i < |writes| ==> writes[i].id == id)
    ensures forall k :: 0 <= k < i ==> writes[k].id != id
  {
    i := 0;
    while i < |writes| && writes[i].id != id
      invariant i <= |writes| && forall k :: 0 <= k < i ==> writes[k].id != id
    {
      i := i + 1;
    }
  }

  // ---- Agreement --------------------------------------------------------------------------------

  ghost predicate Resolves(items: Items, fenced: set<ObjectId>, e: Edge) {
    && Resolve(items, fenced, e.parent).Some? && Resolve(items, fenced, e.child).Some?
    && MayDerive(Resolve(items, fenced, e.parent).value, Resolve(items, fenced, e.child).value)
  }

  ghost predicate TablesAgree(items: Items, lineage: seq<Edge>) {
    forall i :: 0 <= i < |items| && items[i].Some? ==> TableOk(items[i].value.table) && LinksOk(lineage, items[i].value)
  }

  /** What the domain must satisfy to be opened or committed. */
  ghost predicate Agrees(items: Items, lineage: seq<Edge>, fenced: set<ObjectId>) {
    (forall e :: e in lineage ==> Resolves(items, fenced, e)) && TablesAgree(items, lineage)
  }

  ghost predicate NoFencedEdge(lineage: seq<Edge>, fenced: set<ObjectId>) {
    forall e :: e in lineage ==> e.parent.component !in fenced && e.child.component !in fenced
  }

  /** In a well-formed domain only a fence can stop a commit. */
  lemma OnlyFencesDisagree(items: Items, lineage: seq<Edge>, fenced: set<ObjectId>)
    requires DomainOk(items, lineage)
    ensures Agrees(items, lineage, fenced) <==> NoFencedEdge(lineage, fenced)
  {
    hide Lookup, MayDerive, LinksOk, D.Forest, Distinct, TableOk, IsMailbox, AttachmentsOk;
    assert TablesAgree(items, lineage) by {
      forall i | 0 <= i < |items| && items[i].Some?
        ensures TableOk(items[i].value.table)
      {
        assert MemberOk(items[i].value);
      }
    }
    forall e | e in lineage
      ensures Resolves(items, fenced, e) <==> e.parent.component !in fenced && e.child.component !in fenced
    {
      assert EdgeOk(items, e);
    }
  }

  method EdgeResolves(items: Items, fenced: set<ObjectId>, e: Edge) returns (ok: bool)
    ensures ok <==> Resolves(items, fenced, e)
  {
    var parent, child := Resolve(items, fenced, e.parent), Resolve(items, fenced, e.child);
    return parent.Some? && child.Some? && MayDerive(parent.value, child.value);
  }

  lemma NoEdgeToNowhere(lineage: seq<Edge>, r: Ref)
    requires D.RefsOk(lineage) && !D.RefOk(r)
    ensures D.ParentOf(lineage, r).None?
  {
  }

  method MemberAgrees(m: Member, graph: D.DerivationTable) returns (ok: bool)
    requires graph.Shaped() && graph.TableOk()
    ensures ok <==> TableOk(m.table) && LinksOk(graph.Edges(), m)
  {
    hide D.ParentOf, TableOk, D.Acyclic, D.UniqueChildren;
    ok := IsValid(m.table);
    if !ok {
      return;
    }
    ghost var lineage := graph.Edges();
    var s := 0;
    while s < CapTables.SLOTS
      invariant 0 <= s <= CapTables.SLOTS && forall x :: 0 <= x < s ==> LinkOk(lineage, m, x)
    {
      var p := m.table.parents[s];
      if !D.RefOk(RefOf(m, s)) {
        NoEdgeToNowhere(lineage, RefOf(m, s));
      }
      var parent := graph.Parent(RefOf(m, s));
      ParentInRange(m.table, s);
      if (p != NONE && parent != Some(RefOf(m, p)))
         || (parent.Some? && parent.value.component == m.root && p != parent.value.slot) {
        assert !LinkOk(lineage, m, s);
        return false;
      }
      s := s + 1;
    }
  }

  lemma ParentInRange(t: Slots, s: nat)
    requires TableOk(t) && s < CapTables.SLOTS
    ensures t.parents[s] != NONE ==> t.parents[s] < CapTables.SLOTS
  {
    hide Acyclic, MayDerive;
    assert SlotOk(t, s);
  }

  /** Accepts exactly the domains whose tables and forest agree. */
  method GraphMatches(items: Items, lineage: seq<Edge>, fenced: set<ObjectId>) returns (ok: bool)
    requires D.Forest(lineage)
    ensures ok <==> Agrees(items, lineage, fenced)
  {
    hide D.Forest, Resolves, TableOk, LinksOk;
    var i := 0;
    while i < |lineage|
      invariant 0 <= i <= |lineage| && forall k :: 0 <= k < i ==> Resolves(items, fenced, lineage[k])
    {
      ok := EdgeResolves(items, fenced, lineage[i]);
      if !ok {
        return;
      }
      i := i + 1;
    }
    var graph := new D.DerivationTable.Of(lineage);
    i := 0;
    while i < |items|
      invariant 0 <= i <= |items| && graph.Shaped() && graph.TableOk() && graph.Edges() == lineage
      invariant forall k :: 0 <= k < i && items[k].Some? ==> TableOk(items[k].value.table) && LinksOk(lineage, items[k].value)
    {
      if items[i].Some? {
        ok := MemberAgrees(items[i].value, graph);
        if !ok {
          return;
        }
      }
      i := i + 1;
    }
    ok := true;
  }

  // ---- Transactions -----------------------------------------------------------------------------

  /** The store holds these tables, mailboxes and edges. */
  ghost predicate Stored(disk: Disk, items: Items, lineage: seq<Edge>) {
    && |disk.tables| == |disk.mail| == |items| && disk.lineage == lineage
    && forall i :: 0 <= i < |items| ==>
         && disk.tables[i] == (if items[i].Some? then Some(items[i].value.table) else None)
         && disk.mail[i] == (if items[i].Some? then Some(items[i].value.mailbox) else None)
  }

  /** Whatever is not marked dirty is as it was. */
  ghost predicate Tracked(saved: Items, items: Items, tables: set<nat>, states: set<nat>) {
    && |saved| == |items|
    && forall i :: 0 <= i < |items| ==>
         && (saved[i].Some? <==> items[i].Some?)
         && (saved[i].Some? ==>
               && saved[i].value.root == items[i].value.root && saved[i].value.exited == items[i].value.exited
               && (i !in tables ==> saved[i].value.table == items[i].value.table)
               && (i !in states ==> saved[i].value.mailbox == items[i].value.mailbox))
  }

  predicate IsMember(items: Items, i: nat) {
    i < |items| && items[i].Some?
  }

  ghost predicate NoRoom(t: Slots) {
    forall s :: 0 <= s < CapTables.SLOTS ==> !Free(t, s)
  }

  /** How many objects the first `n` members add to the batch. */
  function Weight(items: Items, tables: set<nat>, states: set<nat>, n: nat): nat
    requires n <= |items|
  {
    if n == 0 then 0
    else
      Weight(items, tables, states, n - 1)
      + if items[n - 1].None? then 0 else (if n - 1 in tables then 1 else 0) + (if n - 1 in states then 1 else 0)
  }

  lemma {:induction false} NothingDirty(items: Items, n: nat)
    requires n <= |items|
    ensures Weight(items, {}, {}, n) == 0
  {
    if n > 0 {
      NothingDirty(items, n - 1);
    }
  }

  lemma {:induction false} WeightGrows(items: Items, tables: set<nat>, states: set<nat>, n: nat, m: nat)
    requires n <= m <= |items|
    ensures Weight(items, tables, states, n) <= Weight(items, tables, states, m)
    decreases m
  {
    if n < m {
      WeightGrows(items, tables, states, n, m - 1);
    }
  }

  /** The store with one member's dirty parts written. */
  function WithMember(disk: Disk, m: Member, i: nat, table: bool, state: bool): (next: Disk)
    requires i < |disk.tables| == |disk.mail|
    ensures |next.tables| == |next.mail| == |disk.tables| && next.contents == disk.contents && next.lineage == disk.lineage
  {
    disk.(tables := if table then disk.tables[i := Some(m.table)] else disk.tables,
          mail := if state then disk.mail[i := Some(m.mailbox)] else disk.mail)
  }

  ghost function WithMembers(disk: Disk, items: Items, tables: set<nat>, states: set<nat>, n: nat): (next: Disk)
    requires n <= |items| == |disk.tables| == |disk.mail|
    ensures |next.tables| == |next.mail| == |items| && next.contents == disk.contents && next.lineage == disk.lineage
  {
    if n == 0 then disk
    else
      var before := WithMembers(disk, items, tables, states, n - 1);
      if items[n - 1].None? then before else WithMember(before, items[n - 1].value, n - 1, n - 1 in tables, n - 1 in states)
  }

  method GatherMember(m: Member, i: nat, table: bool, state: bool, disk: Disk, count: nat) returns (fits: bool, next: Disk, total: nat)
    requires i < |disk.tables| == |disk.mail| && count <= BATCH_MAX
    ensures fits <==> count + (if table then 1 else 0) + (if state then 1 else 0) <= BATCH_MAX
    ensures fits ==> total == count + (if table then 1 else 0) + (if state then 1 else 0)
    ensures fits ==> next == WithMember(disk, m, i, table, state)
    ensures next.contents == disk.contents
  {
    next, total := disk, count;
    if table {
      if total == BATCH_MAX {
        return false, next, total;
      }
      next, total := next.(tables := next.tables[i := Some(m.table)]), total + 1;
    }
    if state {
      if total == BATCH_MAX {
        return false, next, total;
      }
      next, total := next.(mail := next.mail[i := Some(m.mailbox)]), total + 1;
    }
    fits := true;
  }

  lemma {:induction false} WithMembersAt(disk: Disk, items: Items, tables: set<nat>, states: set<nat>, n: nat, i: nat)
    requires n <= |items| == |disk.tables| == |disk.mail| && i < |items|
    ensures WithMembers(disk, items, tables, states, n).tables[i] ==
            if i < n && items[i].Some? && i in tables then Some(items[i].value.table) else disk.tables[i]
    ensures WithMembers(disk, items, tables, states, n).mail[i] ==
            if i < n && items[i].Some? && i in states then Some(items[i].value.mailbox) else disk.mail[i]
    decreases n
  {
    if n > 0 {
      WithMembersAt(disk, items, tables, states, n - 1, i);
    }
  }

  /** Writing what is dirty brings the store up to date. */
  lemma WithMembersStored(disk: Disk, saved: Items, savedLineage: seq<Edge>, items: Items, tables: set<nat>, states: set<nat>,
                          lineage: seq<Edge>)
    requires Stored(disk, saved, savedLineage) && Tracked(saved, items, tables, states)
    ensures Stored(WithMembers(disk, items, tables, states, |items|).(lineage := lineage), items, lineage)
    ensures lineage == savedLineage ==>
              WithMembers(disk, items, tables, states, |items|).(lineage := lineage) == WithMembers(disk, items, tables, states, |items|)
  {
    forall i | 0 <= i < |items|
      ensures var next := WithMembers(disk, items, tables, states, |items|);
              && next.tables[i] == (if items[i].Some? then Some(items[i].value.table) else None)
              && next.mail[i] == (if items[i].Some? then Some(items[i].value.mailbox) else None)
    {
      WithMembersAt(disk, items, tables, states, |items|, i);
    }
  }

  lemma {:induction false} WithoutMembers(disk: Disk, items: Items, tables: set<nat>, states: set<nat>, n: nat)
    requires n <= |items| == |disk.tables| == |disk.mail|
    ensures Weight(items, tables, states, n) == 0 ==> WithMembers(disk, items, tables, states, n) == disk
    decreases n
  {
    if n > 0 {
      WithoutMembers(disk, items, tables, states, n - 1);
    }
  }

  lemma TrackedLength(saved: Items, items: Items, tables: set<nat>, states: set<nat>)
    requires Tracked(saved, items, tables, states)
    ensures |saved| == |items|
  {
  }

  lemma StoredLength(disk: Disk, items: Items, lineage: seq<Edge>)
    requires Stored(disk, items, lineage)
    ensures |disk.tables| == |disk.mail| == |items|
  {
  }

  class CapabilityDomain {
    const fenced: set<ObjectId>
    var items: Items
    var lineage: seq<Edge>
    var saved: Items
    var savedLineage: seq<Edge>
    var tablesDirty: set<nat>
    var statesDirty: set<nat>
    var lineageDirty: bool
    var active: bool
    var halted: bool
    var writes: seq<Staged>
    var disk: Disk
    /** Every committed state so far. */
    ghost var past: seq<Items>

    ghost predicate Valid()
      reads this
    {
      && DomainOk(items, lineage)
      && |writes| <= BATCH_MAX && DistinctIds(writes)
      && Chronicle(past) && past != []
      && if active then InTransaction() else writes == [] && past[|past| - 1] == items && (!halted ==> Stored(disk, items, lineage))
    }

    ghost predicate InTransaction()
      reads this
    {
      && !halted && DomainOk(saved, savedLineage) && Stored(disk, saved, savedLineage)
      && past != [] && past[|past| - 1] == saved && Follows(saved, items)
      && Tracked(saved, items, tablesDirty, statesDirty) && (!lineageDirty ==> lineage == savedLineage)
    }

    /** What reads inside the transaction see. */
    ghost function View(): map<ObjectId, seq<Byte>>
      reads this
    {
      Overlay(disk.contents, writes)
    }

    constructor (items: Items, lineage: seq<Edge>, fenced: set<ObjectId>, disk: Disk)
      requires DomainOk(items, lineage) && Stored(disk, items, lineage)
      ensures Valid() && !active && !halted && this.items == items && this.lineage == lineage && this.fenced == fenced
      ensures this.disk == disk && past == [items]
    {
      this.items, this.lineage, this.fenced, this.disk := items, lineage, fenced, disk;
      saved, savedLineage, tablesDirty, statesDirty, lineageDirty := items, lineage, {}, {}, false;
      active, halted, writes, past := false, false, [], [items];
    }

    method Begin(memory: bool) returns (ok: bool)
      requires Valid()
      modifies this
      ensures Valid()
      ensures ok <==> memory && !old(active) && !old(halted)
      ensures !ok ==> unchanged(this)
      ensures ok ==> active && items == old(items) && lineage == old(lineage) && saved == items && savedLineage == lineage
      ensures ok ==> disk == old(disk) && View() == disk.contents && past == old(past) && BatchSize() == 0
    {
      hide DomainOk, Chronicle, Follows;
      if active || halted || !memory {
        return false;
      }
      saved, savedLineage := items, lineage;
      tablesDirty, statesDirty, lineageDirty := {}, {}, false;
      writes, active := [], true;
      FollowsSelf(items);
      NothingDirty(items, |items|);
      return true;
    }

    /** Back to the state before the transaction. */
    method Abort()
      requires Valid()
      modifies this
      ensures Valid() && !active && disk == old(disk) && past == old(past) && halted == old(halted)
      ensures items == (if old(active) then old(saved) else old(items))
      ensures lineage == (if old(active) then old(savedLineage) else old(lineage))
    {
      hide DomainOk, Chronicle, Follows, Tracked, Stored;
      if active {
        items, lineage := saved, savedLineage;
        writes, active := [], false;
      }
    }

    method StageWrite(w: Staged, memory: bool) returns (ok: bool)
      requires Valid()
      modifies this`writes
      ensures Valid()
      ensures ok ==> old(active) && View() == old(View())[w.id := w.payload]
      ensures !ok ==> writes == old(writes)
      ensures old(active) && memory && w.payload != [] && !ok ==> |writes| == BATCH_MAX
    {
      hide DomainOk, Chronicle, Follows, Tracked, Stored, Overlay;
      if !active || w.payload == [] {
        return false;
      }
      var i := FindWrite(writes, w.id);
      if i == BATCH_MAX || !memory {
        return false;
      }
      if i < |writes| {
        OverlayReplaces(disk.contents, writes, i, w);
        writes := writes[i := w];
      } else {
        OverlayAppends(disk.contents, writes, w);
        writes := writes + [w];
      }
      return true;
    }

    method Read(id: ObjectId) returns (payload: Option<seq<Byte>>)
      requires Valid()
      ensures !halted ==> payload == if id in View() then Some(View()[id]) else None
      ensures halted ==> payload == None
    {
      hide DomainOk, Chronicle, Follows, Tracked, Stored, Overlay;
      if halted {
        return None;
      }
      if active {
        var i := FindWrite(writes, id);
        if i < |writes| {
          OverlayHits(disk.contents, writes, i);
          return Some(writes[i].payload);
        }
      }
      OverlayMisses(disk.contents, writes, id);
      return if id in disk.contents then Some(disk.contents[id]) else None;
    }

    // ---- Granting ---------------------------------------------------------------------------------

    /** Adopts a grant built on copies. */
    method Adopt(i: nat, s: nat, j: nat, child: nat, c: Cap)
      requires Valid() && active && MayGrant(items, lineage, i, s, j, child, c) && |lineage| < D.DERIVATION_MAX
      modifies this`items, this`lineage, this`tablesDirty, this`lineageDirty
      ensures Valid() && Get(items[j].value.table, child) == Some(c)
      ensures items == Granted(old(items), i, s, j, child, c)
      ensures lineage == old(lineage) + [GrantEdge(old(items), i, s, j, child)]
    {
      hide DomainOk, Chronicle, Follows, Stored, Overlay, CapOk, MayDerive;
      GrantKeeps(items, lineage, i, s, j, child, c);
      GrantFollows(items, i, s, j, child, c);
      FollowsOn(saved, items, Granted(items, i, s, j, child, c));
      lineage := lineage + [GrantEdge(items, i, s, j, child)];
      items := Granted(items, i, s, j, child, c);
      tablesDirty, lineageDirty := tablesDirty + {j}, true;
    }

    /** Derives a weaker capability into the owner's own table. */
    method Derive(owner: nat, slot: nat, rights: bv32, badge: nat) returns (reply: Reply)
      requires Valid()
      modifies this`items, this`lineage, this`tablesDirty, this`statesDirty, this`lineageDirty
      ensures Valid()
      ensures reply.Failed? ==> unchanged(this)
      ensures reply == Failed(Invalid) <==> !old(active) || !IsMember(old(items), owner)
      ensures reply == Failed(Forbidden) <==>
              && old(active) && IsMember(old(items), owner)
              && var t := old(items)[owner].value.table;
                 Get(t, slot).None? || Derived(Get(t, slot).value, rights, badge).None? || NoRoom(t)
      ensures reply == Failed(Forbidden) <==>
              && old(active) && IsMember(old(items), owner)
              && (Refused(old(items)[owner].value.table, slot, rights) || Exhausted(old(items)[owner].value.table))
      ensures reply == Failed(Full) ==> |lineage| == D.DERIVATION_MAX
      ensures reply != Failed(Missing)
      ensures reply.Done? ==>
              && Handed(old(items), old(lineage), items, lineage, owner, slot, owner, reply.slot, rights, badge)
              && items[owner].value.mailbox == old(items)[owner].value.mailbox
      ensures reply.Done? ==>
              && MayGrant(old(items), old(lineage), owner, slot, owner, reply.slot,
                          Derived(Get(old(items)[owner].value.table, slot).value, rights, badge).value)
              && items == Granted(old(items), owner, slot, owner, reply.slot,
                                  Derived(Get(old(items)[owner].value.table, slot).value, rights, badge).value)
              && lineage == old(lineage) + [GrantEdge(old(items), owner, slot, owner, reply.slot)]
    {
      hide DomainOk, Chronicle, Follows, Stored, Tracked, Overlay, CapOk, MayDerive, D.Forest, TableOk, Refused, Exhausted, Handed, Derived;
      if !active || !IsMember(items, owner) {
        return Failed(Invalid);
      }
      var table := items[owner].value.table;
      MemberFacts(items, lineage, owner);
      DerivedExactly(table, slot, rights, badge);
      RoomExactly(table);
      var staged := new CapTable.Of(table);
      var child := staged.Derive(slot, rights, badge);
      if child.None? {
        return Failed(Forbidden);
      }
      InSlot(table, slot);
      ghost var c := Derived(Get(table, slot).value, rights, badge).value;
      var graph := new D.DerivationTable.Of(lineage);
      var ref := D.Ref(items[owner].value.root, child.value, staged.generations[child.value]);
      var added := graph.Add(RefOf(items[owner].value, slot), ref);
      assert D.Edge(RefOf(items[owner].value, slot), ref) == GrantEdge(items, owner, slot, owner, child.value);
      GrantedEdges(items, lineage, owner, slot, owner, child.value, c);
      if !added {
        return Failed(Full);
      }
      HandedOver(items, lineage, owner, slot, owner, child.value, rights, badge, c);
      Adopt(owner, slot, owner, child.value, Derived(Get(table, slot).value, rights, badge).value);
      return Done(child.value);
    }

    // ---- Sending ----------------------------------------------------------------------------------

    method Post(j: nat, payload: seq<Byte>, slot: nat) returns (ok: bool)
      requires Valid() && active && IsMember(items, j)
      requires slot == NO_SLOT || Get(items[j].value.table, slot).Some?
      modifies this`items, this`statesDirty
      ensures Valid()
      ensures ok <==> |old(items)[j].value.mailbox| + 8 + |payload| <= MAILBOX_BYTES
      ensures !ok ==> items == old(items) && statesDirty == old(statesDirty)
      ensures ok ==> Posted(old(items), items, j, Frame(payload, slot))
    {
      hide DomainOk, Chronicle, Follows, Stored, Overlay, IsMailbox, Get;
      var m := items[j].value;
      MemberFacts(items, lineage, j);
      SlotInRange(m.table, slot);
      var mailbox := Queue(m.mailbox, payload, slot);
      if mailbox.None? {
        return false;
      }
      LetterAdded(m, mailbox.value, Frame(payload, slot));
      MailKeeps(items, lineage, j, mailbox.value);
      FollowsOn(saved, items, items[j := Some(m.(mailbox := mailbox.value))]);
      items := items[j := Some(m.(mailbox := mailbox.value))];
      statesDirty := statesDirty + {j};
      return true;
    }

    /** Grants, links and queues together or not at all. */
    method Enclose(sender: nat, j: nat, payload: seq<Byte>, source: nat, c: Cap) returns (reply: Reply)
      requires Valid() && active && IsMember(items, sender) && IsMember(items, j) && source < 16
      requires Get(items[sender].value.table, source).Some? && CapOk(c) && MayDerive(Get(items[sender].value.table, source).value, c)
      requires c.subject == items[sender].value.table.slots[source].subject
      modifies this`items, this`lineage, this`tablesDirty, this`statesDirty, this`lineageDirty
      ensures Valid()
      ensures reply.Failed? ==> unchanged(this) && reply.why == Full
      ensures reply.Done? <==>
              && !NoRoom(old(items)[j].value.table) && |old(lineage)| < D.DERIVATION_MAX
              && |old(items)[j].value.mailbox| + 8 + |payload| <= MAILBOX_BYTES
      ensures reply.Done? ==>
              && MayGrant(old(items), old(lineage), sender, source, j, reply.slot, c)
              && lineage == old(lineage) + [GrantEdge(old(items), sender, source, j, reply.slot)]
              && Posted(Granted(old(items), sender, source, j, reply.slot, c), items, j, Frame(payload, reply.slot))
      ensures reply.Done? ==>
              Enclosed(old(items), old(lineage), items, lineage, sender, j, payload, source, c.rights, c.badge, reply.slot)
    {
      hide DomainOk, Chronicle, Follows, Stored, Tracked, Overlay, CapOk, MayDerive, D.Forest, TableOk, Get, IsMailbox, Handed,
           Exhausted, RightsOk;
      MemberFacts(items, lineage, j);
      var staged := new CapTable.Of(items[j].value.table);
      var child := staged.InsertRoot(c);
      if child.None? {
        return Failed(Full);
      }
      var graph := new D.DerivationTable.Of(lineage);
      var ref := D.Ref(items[j].value.root, child.value, staged.generations[child.value]);
      var added := graph.Add(RefOf(items[sender].value, source), ref);
      assert D.Edge(RefOf(items[sender].value, source), ref) == GrantEdge(items, sender, source, j, child.value);
      GrantedEdges(items, lineage, sender, source, j, child.value, c);
      if !added || |items[j].value.mailbox| + 8 + |payload| > MAILBOX_BYTES {
        return Failed(Full);
      }
      HandedOver(items, lineage, sender, source, j, child.value, c.rights, c.badge, c);
      Adopt(sender, source, j, child.value, c);
      FreeInRange(old(items)[j].value.table, child.value);
      ghost var endowed := items;
      var ok := Post(j, payload, child.value);
      HandedAlong(old(items), old(lineage), endowed, items, lineage, sender, source, j, child.value, c.rights, c.badge);
      return Done(child.value);
    }

    /** A letter with a capability. */
    method SendWith(sender: nat, j: nat, payload: seq<Byte>, source: nat, rights: bv32, badge: nat)
      returns (reply: Reply)
      requires Valid() && active && IsMember(items, sender) && IsMember(items, j)
      modifies this`items, this`lineage, this`tablesDirty, this`statesDirty, this`lineageDirty
      ensures Valid()
      ensures reply.Failed? ==> unchanged(this)
      ensures reply.Done? <==> Grantable(old(items), old(lineage), old(View()), sender, j, payload, source, rights, badge)
      ensures reply.Done? ==> GrantSent(old(items), old(lineage), items, lineage, sender, j, payload, source, rights, badge, reply.slot)
      ensures reply != Failed(Invalid)
      ensures reply == Failed(Forbidden) <==> Refused(old(items)[sender].value.table, source, rights)
      ensures reply == Failed(Missing) <==>
              && !Refused(old(items)[sender].value.table, source, rights)
              && old(items)[sender].value.table.slots[source].subject !in old(View())
      ensures reply.Done? ==> Enclosed(old(items), old(lineage), items, lineage, sender, j, payload, source, rights, badge, reply.slot)
    {
      hide DomainOk, Chronicle, Follows, Stored, Tracked, Overlay, CapOk, MayDerive, D.Forest, TableOk, IsMailbox, Refused, Enclosed,
           Posted, MayGrant, RightsOk;
      MemberFacts(items, lineage, sender);
      DerivedExactly(items[sender].value.table, source, rights, badge);
      RefusedBounds(items[sender].value.table, source, rights);
      var from := Get(items[sender].value.table, source);
      var c := if from.None? then None else Derived(from.value, rights, badge);
      if c.None? {
        return Failed(Forbidden);
      }
      var present := Read(from.value.subject);
      if present.None? {
        return Failed(Missing);
      }
      reply := Enclose(sender, j, payload, source, c.value);
    }

    /** Sends a letter to the component a capability names, perhaps with a derived capability. */
    method Send(sender: nat, target: nat, payload: seq<Byte>, source: int, rights: bv32, badge: nat) returns (reply: Reply)
      requires Valid()
      modifies this`items, this`lineage, this`tablesDirty, this`statesDirty, this`lineageDirty
      ensures Valid()
      ensures reply.Failed? ==> unchanged(this)
      ensures reply.Done? <==>
              && old(active) && IsMember(old(items), sender) && |payload| <= LETTER_MAX && source >= -1
              && var j := Addressee(old(items), sender, target);
                 && j.Some? && IsMember(old(items), j.value) && !old(items)[j.value].value.exited
                 && if source == -1 then rights == 0 && badge == 0 && |old(items)[j.value].value.mailbox| + 8 + |payload| <= MAILBOX_BYTES
                    else Grantable(old(items), old(lineage), old(View()), sender, j.value, payload, source, rights, badge)
      ensures reply.Done? && source == -1 ==>
                && lineage == old(lineage)
                && Posted(old(items), items, Addressee(old(items), sender, target).value, Frame(payload, NO_SLOT))
      ensures reply == Failed(Forbidden) <==>
              && old(active) && IsMember(old(items), sender) && |payload| <= 4096 && source >= -1
              && var t := old(items)[sender].value.table;
                 || target >= 16 || IsZero(t.slots[target].subject) || t.slots[target].rights & 4 == 0
                 || (source >= 0 && Refused(t, source, rights) && Reachable(old(items), t.slots[target].subject))
      ensures reply.Done? && source >= 0 ==>
                Enclosed(old(items), old(lineage), items, lineage, sender, Addressee(old(items), sender, target).value,
                         payload, source, rights, badge, reply.slot)
      ensures reply.Done? ==>
                && target < 16 && var j := Addressee(old(items), sender, target).value;
                   old(items)[j].value.root == old(items)[sender].value.table.slots[target].subject && !old(items)[j].value.exited
      ensures reply.Done? && source >= 0 ==>
                GrantSent(old(items), old(lineage), items, lineage, sender, Addressee(old(items), sender, target).value,
                          payload, source, rights, badge, reply.slot)
    {
      hide DomainOk, Chronicle, Follows, Stored, Tracked, Overlay, CapOk, D.Forest, TableOk, Get, Grantable, GrantSent, Posted, Refused,
           Enclosed, Allows, Reachable;
      if !IsMember(items, sender) || !active || |payload| > LETTER_MAX || source < -1 {
        return Failed(Invalid);
      }
      MemberFacts(items, lineage, sender);
      SendableExactly(items[sender].value.table, target);
      var destination := Get(items[sender].value.table, target);
      if destination.None? || !Allows(destination.value, SEND) {
        return Failed(Forbidden);
      }
      OnlyOne(items, lineage, destination.value.subject);
      var j := Find(items, destination.value.subject);
      if j.None? || items[j.value].value.exited {
        return Failed(Missing);
      }
      if source == -1 {
        if rights != 0 || badge != 0 {
          return Failed(Invalid);
        }
        var ok := Post(j.value, payload, NO_SLOT);
        return if ok then Done(0) else Failed(Full);
      }
      reply := SendWith(sender, j.value, payload, source, rights, badge);
    }

    // ---- Revoking ---------------------------------------------------------------------------------

    /** All of these denote something and their owners' mailboxes are readable. */
    method CheckRemovable(removed: seq<Ref>) returns (ok: bool)
      ensures ok <==> forall n :: 0 <= n < |removed| ==> Removable(items, fenced, removed[n])
    {
      hide Lookup, IsMailbox;
      var n := 0;
      while n < |removed|
        invariant 0 <= n <= |removed| && forall k :: 0 <= k < n ==> Removable(items, fenced, removed[k])
      {
        if Resolve(items, fenced, removed[n]).None? {
          assert !Removable(items, fenced, removed[n]);
          return false;
        }
        FoundFacts(items, removed[n]);
        var i := Find(items, removed[n].component);
        var readable := Validate(items[i.value].value.mailbox);
        if !readable {
          assert !Removable(items, fenced, removed[n]);
          return false;
        }
        n := n + 1;
      }
      return true;
    }

    /** Empties one slot and strips it from its owner's mailbox. */
    method RemoveOne(r: Ref, ghost start: Items, ghost done: seq<Ref>)
      requires Distinct(start) && MembersOk(start) && AllSwept(start, done, items) && Lookup(start, r).Some?
      requires Tracked(saved, items, tablesDirty, statesDirty)
      modifies this`items, this`tablesDirty, this`statesDirty
      ensures AllSwept(start, done + [r], items) && Tracked(saved, items, tablesDirty, statesDirty)
    {
      hide TableOk, Lookup, Swept, IsMailbox, Get, AttachmentsOk, Distinct;
      SameFind(start, done, items, r);
      var i := Find(items, r.component).value;
      var m := items[i].value;
      SweptBox(start, done, items, i);
      var mailbox, changed := Unqueue(m.mailbox, r.slot);
      var table := Table(m.table.slots[r.slot := NO_CAP], m.table.parents[r.slot := NONE], m.table.generations);
      ClearedOne(m.table, r.slot);
      var after := m.(table := table, mailbox := mailbox);
      SweptMore(start[i].value, done, m, r.slot, after);
      SweptAt(start, done, items, i, r, after);
      items := items[i := Some(after)];
      tablesDirty := tablesDirty + {i};
      if changed {
        statesDirty := statesDirty + {i};
      }
    }

    method RemoveAll(removed: seq<Ref>)
      requires DomainOk(items, lineage) && Tracked(saved, items, tablesDirty, statesDirty)
      requires forall r :: r in removed ==> Lookup(items, r).Some?
      modifies this`items, this`tablesDirty, this`statesDirty
      ensures AllSwept(old(items), removed, items) && Tracked(saved, items, tablesDirty, statesDirty)
    {
      hide Lookup, Distinct, MemberOk, AllLinksOk, EdgesOk, D.Forest, Swept, Tracked, AllSwept;
      ghost var start := items;
      SweptNothing(items);
      var n := 0;
      assert removed[..0] == [];
      while n < |removed|
        invariant 0 <= n <= |removed|
        invariant AllSwept(start, removed[..n], items) && Tracked(saved, items, tablesDirty, statesDirty)
      {
        RemoveOne(removed[n], start, removed[..n]);
        n := n + 1;
        assert removed[..n] == removed[..n - 1] + [removed[n - 1]];
      }
      assert removed[..n] == removed;
    }

    /**
     * Removes a capability and exactly what was derived from it, in every component, together with
     * its attachments to queued letters; or, if any of it is out of reach, changes nothing.
     */
    method Revoke(owner: nat, slot: nat) returns (ok: bool, ghost gone: seq<Ref>)
      requires Valid()
      modifies this`items, this`lineage, this`tablesDirty, this`statesDirty, this`lineageDirty
      ensures Valid()
      ensures !ok ==> unchanged(this)
      ensures ok <==>
              && old(active) && IsMember(old(items), owner) && Get(old(items)[owner].value.table, slot).Some?
              && Unfenced(old(items), old(lineage), owner, slot, fenced)
      ensures ok ==> InSubtree(old(items), old(lineage), owner, slot, gone)
      ensures ok ==> AllSwept(old(items), gone, items) && lineage == D.Kept(old(lineage), gone)
      ensures ok ==> forall r :: Lookup(items, r) == if r in gone then None else Lookup(old(items), r)
    {
      hide DomainOk, Chronicle, Follows, Stored, Tracked, Overlay, CapOk, D.Forest, D.Descends, AllSwept, Get, Lookup, D.Kept,
           D.NoRepeats, MembersOk, Removable, Unfenced;
      gone := [];
      if !active || !IsMember(items, owner) || Get(items[owner].value.table, slot).None? {
        return false, gone;
      }
      SlotInRange(items[owner].value.table, slot);
      var root := RefOf(items[owner].value, slot);
      DomainFacts(items, lineage);
      LiveRef(items, lineage, owner, slot);
      var removed, rest := Subtree(lineage, root);
      gone := removed;
      SubtreeLive(items, lineage, owner, slot, gone);
      SubtreeRemovable(items, lineage, owner, slot, gone, fenced);
      ok := CheckRemovable(removed);
      if !ok {
        return;
      }
      SubtreeClosed(lineage, root, removed);
      RemoveAll(removed);
      SweepKeeps(old(items), lineage, removed, items);
      SweepFollows(old(items), removed, items);
      FollowsOn(saved, old(items), items);
      forall r
        ensures Lookup(items, r) == if r in gone then None else Lookup(old(items), r)
      {
        SweptLookup(old(items), removed, items, r);
      }
      lineage, lineageDirty := rest, true;
    }

    // ---- Committing -------------------------------------------------------------------------------

    /** How many objects a commit writes. */
    ghost function BatchSize(): nat
      reads this
    {
      |writes| + Weight(items, tablesDirty, statesDirty, |items|) + if lineageDirty then 1 else 0
    }

    /** The batch of everything marked dirty, and the store once it is written. */
    method Gather() returns (fits: bool, next: Disk, count: nat)
      requires Valid() && active
      ensures fits <==> BatchSize() <= BATCH_MAX
      ensures fits ==> Stored(next, items, lineage) && count == BatchSize()
      ensures fits && count == 0 ==> next == disk
      ensures next.contents == disk.contents
    {
      hide DomainOk, Chronicle, Follows, Overlay, Stored, Tracked, WithMember;
      next, count := disk, |writes|;
      TrackedLength(saved, items, tablesDirty, statesDirty);
      StoredLength(disk, saved, savedLineage);
      var i := 0;
      while i < |items|
        invariant 0 <= i <= |items| && count == |writes| + Weight(items, tablesDirty, statesDirty, i) <= BATCH_MAX
        invariant |disk.tables| == |disk.mail| == |items| && next == WithMembers(disk, items, tablesDirty, statesDirty, i)
      {
        WeightGrows(items, tablesDirty, statesDirty, i + 1, |items|);
        if items[i].Some? {
          fits, next, count := GatherMember(items[i].value, i, i in tablesDirty, i in statesDirty, next, count);
          if !fits {
            return;
          }
        }
        i := i + 1;
      }
      WithMembersStored(disk, saved, savedLineage, items, tablesDirty, statesDirty, lineage);
      WithoutMembers(disk, items, tablesDirty, statesDirty, |items|);
      if lineageDirty {
        if count == BATCH_MAX {
          return false, next, count;
        }
        next, count := next.(lineage := lineage), count + 1;
      }
      fits := true;
    }

    /**
     * One batch for the whole transaction: committed, the store holds exactly what memory holds;
     * otherwise memory is back where it was.
     */
    method Commit(outcome: Outcome, memory: bool) returns (result: Outcome)
      requires Valid()
      modifies this
      ensures Valid() && !active
      ensures !old(active) ==> unchanged(this) && result == Rejected
      ensures old(active) ==>
                result == if !memory || !NoFencedEdge(old(lineage), fenced) || old(BatchSize()) > BATCH_MAX then Rejected
                          else if old(BatchSize()) == 0 then Committed else outcome
      ensures result.Committed? ==>
                && items == old(items) && lineage == old(lineage) && past == old(past) + [items]
                && Stored(disk, items, lineage) && disk.contents == old(View()) && !halted
      ensures old(active) && !result.Committed? ==>
                && items == old(saved) && lineage == old(savedLineage) && past == old(past)
                && (halted <==> result.Uncertain?)
      ensures result.Rejected? ==> disk == old(disk)
      ensures result.Uncertain? ==>
                if result.landed then Stored(disk, old(items), old(lineage)) && disk.contents == old(View()) else disk == old(disk)
    {
      hide DomainOk, Chronicle, Follows, Tracked, Overlay, D.Forest, NoFencedEdge, Agrees, Weight, Stored;
      if !active {
        return Rejected;
      }
      OnlyFencesDisagree(items, lineage, fenced);
      DomainFacts(items, lineage);
      var matches := GraphMatches(items, lineage, fenced);
      if !matches || !memory {
        Abort();
        return Rejected;
      }
      var fits, next, count := Gather();
      if !fits {
        Abort();
        return Rejected;
      }
      var contents := ApplyWrites(disk.contents, writes);
      StoredAnyway(next, items, lineage, contents);
      next := next.(contents := contents);
      result := if count == 0 then Committed else outcome;
      if result.Committed? {
        Finish(next);
      } else {
        Abort();
        if result.Uncertain? {
          halted := true;
          disk := if result.landed then next else disk;
        }
      }
    }

    method Finish(next: Disk)
      requires Valid() && active && Stored(next, items, lineage)
      modifies this
      ensures Valid() && !active && disk == next && past == old(past) + [items]
      ensures items == old(items) && lineage == old(lineage) && !halted
    {
      hide DomainOk, Follows, Tracked, Overlay, Distinct, Stored;
      DomainFacts(items, lineage);
      past := past + [items];
      disk, writes, active, halted := next, [], false, false;
      assert forall i :: 0 <= i < |past| ==> Distinct(past[i]);
    }
  }

  method ApplyWrites(base: map<ObjectId, seq<Byte>>, writes: seq<Staged>) returns (contents: map<ObjectId, seq<Byte>>)
    ensures contents == Overlay(base, writes)
  {
    contents := base;
    var i := 0;
    while i < |writes|
      invariant 0 <= i <= |writes| && contents == Overlay(base, writes[..i])
    {
      assert writes[..i + 1][..i] == writes[..i];
      contents := contents[writes[i].id := writes[i].payload];
      i := i + 1;
    }
    assert writes[..i] == writes;
  }

  lemma StoredAnyway(disk: Disk, items: Items, lineage: seq<Edge>, contents: map<ObjectId, seq<Byte>>)
    requires Stored(disk, items, lineage)
    ensures Stored(disk.(contents := contents), items, lineage)
  {
  }

  /** A capability with its descendants, and the forest without them. */
  method Subtree(lineage: seq<Edge>, root: Ref) returns (removed: seq<Ref>, rest: seq<Edge>)
    requires D.Forest(lineage) && D.RefOk(root)
    ensures forall r :: r in removed <==> r == root || D.Descends(lineage, root, r)
    ensures rest == D.Kept(lineage, removed)
  {
    hide D.Forest, D.Descends, D.Kept, D.NoRepeats;
    var graph := new D.DerivationTable.Of(lineage);
    var fit, list := graph.RemoveSubtree(root, D.DERIVATION_MAX);
    FewDescendants(lineage, root, list);
    if !fit {
      assert false;
    }
    removed := [root] + list;
    UniqueAfter(lineage, list);
    rest := D.Unhook(graph.records[..graph.count], root);
    D.KeptAgain(lineage, list, [root], removed);
  }

  lemma UniqueAfter(lineage: seq<Edge>, list: seq<Ref>)
    requires D.Forest(lineage)
    ensures D.UniqueChildren(D.Kept(lineage, list))
  {
    D.KeptUnique(lineage, list);
  }

  /** The capability in this slot and all its descendants. */
  ghost predicate InSubtree(items: Items, lineage: seq<Edge>, owner: nat, slot: nat, gone: seq<Ref>)
    requires IsMember(items, owner)
  {
    slot < CapTables.SLOTS
    && forall r :: r in gone <==> r == RefOf(items[owner].value, slot) || D.Descends(lineage, RefOf(items[owner].value, slot), r)
  }

  /** Nothing in the subtree belongs to a fenced component. */
  ghost predicate Unfenced(items: Items, lineage: seq<Edge>, owner: nat, slot: nat, fenced: set<ObjectId>)
    requires IsMember(items, owner)
  {
    && slot < CapTables.SLOTS
    && var root := RefOf(items[owner].value, slot);
       root.component !in fenced && forall r :: D.Descends(lineage, root, r) ==> r.component !in fenced
  }

  ghost predicate Removable(items: Items, fenced: set<ObjectId>, r: Ref) {
    && Resolve(items, fenced, r).Some? && Find(items, r.component).Some?
    && IsMailbox(items[Find(items, r.component).value].value.mailbox)
  }

  lemma SubtreeRemovable(items: Items, lineage: seq<Edge>, owner: nat, slot: nat, gone: seq<Ref>, fenced: set<ObjectId>)
    requires MembersOk(items) && IsMember(items, owner) && InSubtree(items, lineage, owner, slot, gone)
    requires forall r :: r in gone ==> Lookup(items, r).Some?
    ensures (forall n :: 0 <= n < |gone| ==> Removable(items, fenced, gone[n])) <==> Unfenced(items, lineage, owner, slot, fenced)
  {
    hide Lookup, D.Descends, TableOk, AttachmentsOk, IsMailbox;
    forall r | r in gone
      ensures Removable(items, fenced, r) <==> r.component !in fenced
    {
      FoundFacts(items, r);
      assert MemberOk(items[Find(items, r.component).value].value);
    }
    assert forall n :: 0 <= n < |gone| ==> gone[n] in gone;
    assert Unfenced(items, lineage, owner, slot, fenced) <==> forall r :: r in gone ==> r.component !in fenced;
  }

  lemma DomainFacts(items: Items, lineage: seq<Edge>)
    requires DomainOk(items, lineage)
    ensures Distinct(items) && MembersOk(items) && D.Forest(lineage) && D.UniqueChildren(lineage) && EdgesOk(items, lineage)
  {
  }

  lemma LiveRef(items: Items, lineage: seq<Edge>, i: nat, s: nat)
    requires DomainOk(items, lineage) && IsMember(items, i) && s < CapTables.SLOTS && Get(items[i].value.table, s).Some?
    ensures D.RefOk(RefOf(items[i].value, s)) && Lookup(items, RefOf(items[i].value, s)) == Get(items[i].value.table, s)
  {
    hide D.Forest, EdgesOk, AllLinksOk, Distinct, Lookup, TableOk;
    assert MemberOk(items[i].value);
    LookupAt(items, i, RefOf(items[i].value, s));
  }

  lemma FoundFacts(items: Items, r: Ref)
    requires Lookup(items, r).Some?
    ensures Find(items, r.component).Some? && r.slot < CapTables.SLOTS && D.RefOk(r)
    ensures RefOf(items[Find(items, r.component).value].value, r.slot) == r
  {
  }

  lemma SameFind(start: Items, done: seq<Ref>, items: Items, r: Ref)
    requires Distinct(start) && MembersOk(start) && AllSwept(start, done, items) && Lookup(start, r).Some?
    ensures Find(items, r.component) == Find(start, r.component) && Find(start, r.component).Some?
    ensures r.slot < CapTables.SLOTS && RefOf(start[Find(start, r.component).value].value, r.slot) == r
  {
    hide Lookup, Swept, TableOk, AttachmentsOk, IsMailbox;
    FoundFacts(start, r);
    var i := Find(start, r.component).value;
    SweptBox(start, done, items, i);
    SweptLookup(start, done, items, r);
    SweptRoot(start[i].value, done, items[i].value);
    FindAt(items, i);
  }

  lemma SweptRoot(before: Member, gone: seq<Ref>, after: Member)
    requires IsMailbox(before.mailbox) && Swept(before, gone, after)
    ensures after.root == before.root && after.exited == before.exited
  {
  }

  lemma SweptBox(start: Items, done: seq<Ref>, items: Items, i: nat)
    requires MembersOk(start) && AllSwept(start, done, items) && IsMember(start, i)
    ensures IsMember(items, i) && MemberOk(start[i].value) && IsMailbox(start[i].value.mailbox)
    ensures Swept(start[i].value, done, items[i].value) && IsMailbox(items[i].value.mailbox)
  {
    assert MemberOk(start[i].value);
  }

  lemma ClearedOne(t: Slots, s: nat)
    requires s < CapTables.SLOTS
    ensures Table(t.slots[s := NO_CAP], t.parents[s := NONE], t.generations) == Cleared(t, {s})
  {
  }

  lemma SweptAt(start: Items, done: seq<Ref>, items: Items, i: nat, r: Ref, after: Member)
    requires Distinct(start) && MembersOk(start) && AllSwept(start, done, items) && IsMember(start, i)
    requires r.component == start[i].value.root && MemberOk(start[i].value) && Swept(start[i].value, done + [r], after)
    ensures AllSwept(start, done + [r], items[i := Some(after)])
  {
    hide Swept, TableOk, AttachmentsOk, IsMailbox;
    forall k | 0 <= k < |start| && start[k].Some? && k != i
      ensures Swept(start[k].value, done + [r], items[k].value)
    {
      assert MemberOk(start[k].value);
      assert i < k || k < i;
      SweptElsewhere(start[k].value, done, r, items[k].value);
    }
  }

  lemma FewDescendants(lineage: seq<Edge>, root: Ref, list: seq<Ref>)
    requires D.Forest(lineage)
    ensures D.NoRepeats(list) && (forall r :: r in list ==> D.Descends(lineage, root, r)) ==> |list| <= D.DERIVATION_MAX
  {
    if D.NoRepeats(list) && forall r :: r in list ==> D.Descends(lineage, root, r) {
      D.CollectedFew(lineage, root, list);
    }
  }

  /** Everything in a subtree denotes something, so only a fence keeps it from being removed. */
  lemma SubtreeLive(items: Items, lineage: seq<Edge>, owner: nat, slot: nat, gone: seq<Ref>)
    requires DomainOk(items, lineage) && IsMember(items, owner) && slot < CapTables.SLOTS && Get(items[owner].value.table, slot).Some?
    requires InSubtree(items, lineage, owner, slot, gone)
    ensures forall r :: r in gone ==> Lookup(items, r).Some?
  {
    hide Lookup, D.Forest, Distinct, AllLinksOk, MembersOk, Get, EdgesOk;
    LiveRef(items, lineage, owner, slot);
    forall r | r in gone && r != RefOf(items[owner].value, slot)
      ensures Lookup(items, r).Some?
    {
      var n: nat :| n > 0 && D.Up(lineage, r, n) == Some(RefOf(items[owner].value, slot));
      DomainFacts(items, lineage);
      ParentBounds(items, lineage, r);
    }
  }

  function Addressee(items: Items, sender: nat, target: nat): (j: Option<nat>)
    requires IsMember(items, sender)
    ensures j.Some? ==> IsMember(items, j.value)
  {
    var destination := Get(items[sender].value.table, target);
    if destination.None? || !Allows(destination.value, SEND) then None else Find(items, destination.value.subject)
  }

  function Derivable(items: Items, sender: nat, source: nat, rights: bv32, badge: nat): Option<Cap>
    requires IsMember(items, sender)
  {
    var from := Get(items[sender].value.table, source);
    if from.None? then None else Derived(from.value, rights, badge)
  }

  ghost predicate Grantable(items: Items, lineage: seq<Edge>, view: map<ObjectId, seq<Byte>>,
                            sender: nat, j: nat, payload: seq<Byte>, source: nat, rights: bv32, badge: nat)
    requires IsMember(items, sender) && IsMember(items, j)
  {
    && Derivable(items, sender, source, rights, badge).Some?
    && Get(items[sender].value.table, source).value.subject in view
    && !NoRoom(items[j].value.table) && |lineage| < D.DERIVATION_MAX
    && |items[j].value.mailbox| + 8 + |payload| <= MAILBOX_BYTES
  }

  /** Only this mailbox grew, by this letter. */
  ghost predicate Posted(before: Items, after: Items, j: nat, f: Frame)
    requires IsMember(before, j)
  {
    && |after| == |before| && after[j].Some?
    && after == before[j := Some(before[j].value.(mailbox := after[j].value.mailbox))]
    && IsMailbox(before[j].value.mailbox) && IsMailbox(after[j].value.mailbox)
    && Letters(after[j].value.mailbox) == Letters(before[j].value.mailbox) + [f]
  }

  /** A component of this name is there and has not exited. */
  ghost predicate Reachable(items: Items, root: ObjectId) {
    exists j :: 0 <= j < |items| && items[j].Some? && items[j].value.root == root && !items[j].value.exited
  }

  /**
   * The first free slot of member `j` holds a copy of slot `s` of member `i`, with exactly these
   * rights and this badge, and hangs below it in the forest; no other member changed.
   */
  ghost predicate Handed(before: Items, lineage: seq<Edge>, after: Items, lineage': seq<Edge>,
                         i: nat, s: nat, j: nat, child: nat, rights: bv32, badge: nat)
    requires IsMember(before, i) && IsMember(before, j)
  {
    && IsMember(after, j) && |after| == |before| && (forall k :: 0 <= k < |after| && k != j ==> after[k] == before[k])
    && var m, m' := before[j].value, after[j].value;
       && s < 16 && child < 16 && m'.root == m.root && m'.exited == m.exited
       && Copied(before[i].value.table.slots[s], m.table, m'.table, child, rights, badge, if i == j then s else 0xFFFF_FFFF)
       && (forall k :: 0 <= k < child ==> !Free(m.table, k))
       && lineage' == lineage + [D.Edge(D.Ref(before[i].value.root, s, before[i].value.table.generations[s]),
                                        D.Ref(m.root, child, m.table.generations[child] + 1))]
  }

  /** And a letter that names the slot was queued with it. */
  ghost predicate Enclosed(before: Items, lineage: seq<Edge>, after: Items, lineage': seq<Edge>,
                           sender: nat, j: nat, payload: seq<Byte>, source: nat, rights: bv32, badge: nat, child: nat)
    requires IsMember(before, sender) && IsMember(before, j)
  {
    && Handed(before, lineage, after, lineage', sender, source, j, child, rights, badge)
    && IsMember(after, j) && IsMailbox(before[j].value.mailbox) && IsMailbox(after[j].value.mailbox)
    && Letters(after[j].value.mailbox) == Letters(before[j].value.mailbox) + [Frame(payload, child)]
  }

  lemma HandedOver(items: Items, lineage: seq<Edge>, i: nat, s: nat, j: nat, child: nat, rights: bv32, badge: nat, c: Cap)
    requires IsMember(items, i) && IsMember(items, j) && s < 16 && Free(items[j].value.table, child)
    requires c == Cap(items[i].value.table.slots[s].subject, rights, badge)
    requires forall k :: 0 <= k < child ==> !Free(items[j].value.table, k)
    ensures Handed(items, lineage, Granted(items, i, s, j, child, c), lineage + [GrantEdge(items, i, s, j, child)],
                   i, s, j, child, rights, badge)
  {
  }

  lemma HandedAlong(before: Items, lineage: seq<Edge>, middle: Items, after: Items, lineage': seq<Edge>,
                    i: nat, s: nat, j: nat, child: nat, rights: bv32, badge: nat)
    requires IsMember(before, i) && IsMember(before, j)
    requires Handed(before, lineage, middle, lineage', i, s, j, child, rights, badge) && |after| == |middle| && IsMember(after, j)
    requires after == middle[j := Some(middle[j].value.(mailbox := after[j].value.mailbox))]
    ensures Handed(before, lineage, after, lineage', i, s, j, child, rights, badge)
  {
    hide Copied, Free;
  }

  lemma OnlyOne(items: Items, lineage: seq<Edge>, root: ObjectId)
    requires DomainOk(items, lineage)
    ensures Reachable(items, root) <==> Find(items, root).Some? && !items[Find(items, root).value].value.exited
  {
    hide EdgesOk, AllLinksOk, D.Forest, MembersOk;
  }

  lemma RefusedBounds(t: Slots, slot: nat, rights: bv32)
    ensures !Refused(t, slot, rights) ==> slot < 16
  {
  }

  lemma SendableExactly(t: Slots, target: nat)
    requires TableOk(t)
    ensures Get(t, target).None? || !Allows(Get(t, target).value, SEND) <==>
            target >= 16 || IsZero(t.slots[target].subject) || t.slots[target].rights & 4 == 0
    ensures Get(t, target).Some? ==> target < 16 && Get(t, target).value == t.slots[target]
  {
    hide Acyclic;
    if target < CapTables.SLOTS {
      assert SlotOk(t, target);
    }
  }

  ghost predicate GrantSent(before: Items, lineage: seq<Edge>, after: Items, lineage': seq<Edge>,
                            sender: nat, j: nat, payload: seq<Byte>, source: nat, rights: bv32, badge: nat, child: nat)
    requires IsMember(before, sender) && IsMember(before, j)
  {
    var c := Derivable(before, sender, source, rights, badge);
    && c.Some? && MayGrant(before, lineage, sender, source, j, child, c.value)
    && lineage' == lineage + [GrantEdge(before, sender, source, j, child)]
    && Posted(Granted(before, sender, source, j, child, c.value), after, j, Frame(payload, child))
  }

  lemma SlotInRange(t: Slots, s: nat)
    ensures Get(t, s).Some? ==> s < CapTables.SLOTS
  {
  }

  lemma FreeInRange(t: Slots, s: nat)
    ensures Free(t, s) ==> s < CapTables.SLOTS
  {
  }

  lemma LetterAdded(m: Member, mailbox: seq<Byte>, f: Frame)
    requires MemberOk(m) && IsMailbox(mailbox) && Letters(mailbox) == Letters(m.mailbox) + [f]
    requires f.slot == NO_SLOT || Get(m.table, f.slot).Some?
    ensures AttachmentsOk(m.(mailbox := mailbox))
  {
    hide TableOk, IsMailbox, Get;
  }

  lemma OverlayAppends(base: map<ObjectId, seq<Byte>>, writes: seq<Staged>, w: Staged)
    ensures Overlay(base, writes + [w]) == Overlay(base, writes)[w.id := w.payload]
  {
    assert (writes + [w])[..|writes|] == writes;
  }

  lemma MemberFacts(items: Items, lineage: seq<Edge>, i: nat)
    requires DomainOk(items, lineage) && IsMember(items, i)
    ensures MemberOk(items[i].value) && TableOk(items[i].value.table) && D.Forest(lineage) && |lineage| <= D.DERIVATION_MAX
  {
  }
}
