/** One replica endpoint in place, call by call what the step functions say. */
module ReplicaNodes {
  import opened ObjectIds
  import opened Crdts
  import opened Replicas
  import R = Replicas

  // ---- The rotation ----------------------------------------------------------------------------

  /** Where in the double round of grants and summaries a node is. */
  function Position(n: Node): nat {
    if n.sendGrant then n.cursor else |n.catalog| + n.cursor
  }

  /** What there is to say at a place of the double round. */
  function PacketAt(n: Node, p: nat): Option<Message>
    requires p < 2 * |n.catalog|
  {
    if p < |n.catalog| then PacketFor(n, n.catalog[p], true) else PacketFor(n, n.catalog[p - |n.catalog|], false)
  }

  lemma AdvancedPosition(n: Node)
    requires n.cursor < |n.catalog|
    ensures var next := Advanced(n);
            && next.cursor < |n.catalog| && next.catalog == n.catalog && next.disk == n.disk
            && Position(next) == if Position(n) + 1 == 2 * |n.catalog| then 0 else Position(n) + 1
  {
  }

  /** The place `k` places further on. */
  function Further(p: nat, k: nat, size: nat): nat
    requires p < size && k <= size
  {
    if p + k < size then p + k else p + k - size
  }

  ghost predicate AllSummable(n: Node) {
    forall i :: 0 <= i < |n.catalog| ==> Summable(n, n.catalog[i])
  }

  /** A silent rotation had nothing to say here and goes on. */
  lemma SilentStep(n: Node, tries: nat)
    requires n.cursor < |n.catalog| && 0 < tries && Rotate(n, tries).1.None? && AllSummable(n)
    ensures PacketAt(n, Position(n)) == None && Rotate(Advanced(n), tries - 1).1.None? && AllSummable(Advanced(n))
    ensures forall p :: 0 <= p < 2 * |n.catalog| ==> PacketAt(Advanced(n), p) == PacketAt(n, p)
  {
    hide Valid;
    assert Summable(n, n.catalog[n.cursor]);
    assert forall s: Scope :: Summable(Advanced(n), s) == Summable(n, s);
  }

  lemma {:induction false} SilentPlaces(n: Node, tries: nat, k: nat)
    requires n.cursor < |n.catalog| && k < tries <= 2 * |n.catalog| && Rotate(n, tries).1.None? && AllSummable(n)
    ensures PacketAt(n, Further(Position(n), k, 2 * |n.catalog|)) == None
    decreases tries
  {
    hide Rotate, PacketAt, AllSummable, Advanced;
    var next := Advanced(n);
    AdvancedPosition(n);
    SilentStep(n, tries);
    if k > 0 {
      SilentPlaces(next, tries - 1, k - 1);
      assert Further(Position(next), k - 1, 2 * |n.catalog|) == Further(Position(n), k, 2 * |n.catalog|);
    }
  }

  /** A node is silent only if no scope has anything to say in either round. */
  lemma SilentExactly(n: Node, i: nat, grants: bool)
    requires !n.halted && n.cursor < |n.catalog| && NextPacket(n).1.None? && i < |n.catalog|
    requires AllSummable(n)
    ensures PacketFor(n, n.catalog[i], grants) == None
  {
    var size, p, goal := 2 * |n.catalog|, Position(n), if grants then i else |n.catalog| + i;
    var k := if goal >= p then goal - p else goal + size - p;
    SilentPlaces(n, size, k);
    assert Further(p, k, size) == goal;
  }

  // ---- The endpoint ----------------------------------------------------------------------------

  class Replica {
    const space: nat
    const peerSpace: nat
    const index: nat
    var disk: Disk
    var catalog: Catalog
    var cursor: nat
    var sendGrant: bool
    var halted: bool

    ghost function State(): Node
      reads this
    {
      Node(space, peerSpace, index, disk, catalog, cursor, sendGrant, halted)
    }

    constructor (space: nat, peerSpace: nat, index: nat, disk: Disk)
      ensures State() == Reopen(Node(space, peerSpace, index, disk, disk.catalog, 0, true, false))
    {
      this.space, this.peerSpace, this.index, this.disk := space, peerSpace, index, disk;
      catalog, cursor, sendGrant, halted := disk.catalog, 0, true, false;
    }

    /** Starting over from what the store holds. */
    method Restart()
      modifies this`catalog, this`cursor, this`sendGrant, this`halted
      ensures State() == Reopen(old(State()))
    {
      catalog, cursor, sendGrant, halted := disk.catalog, 0, true, false;
    }

    method Find(id: ObjectId) returns (i: Option<nat>)
      ensures i == FindScope(catalog, id)
    {
      var k := 0;
      while k < |catalog|
        invariant 0 <= k <= |catalog|
        invariant FindScope(catalog, id) == var rest := FindScope(catalog[k..], id);
                                            if rest.None? then None else Some(rest.value + k)
      {
        if catalog[k].id == id {
          return Some(k);
        }
        assert catalog[k..][1..] == catalog[k + 1..];
        k := k + 1;
      }
      return None;
    }

    method Changed(next: Catalog) returns (changed: nat)
      ensures changed == FirstChange(next, catalog)
    {
      changed := 0;
      while changed < |next| && changed < |catalog| && next[changed] == catalog[changed]
        invariant changed <= |next| && changed <= |catalog|
        invariant FirstChange(next, catalog) == changed + FirstChange(next[changed..], catalog[changed..])
      {
        assert next[changed..][1..] == next[changed + 1..] && catalog[changed..][1..] == catalog[changed + 1..];
        changed := changed + 1;
      }
    }

    method Publish(next: Option<Catalog>, state: Option<(ObjectId, State)>, fate: Fate) returns (ok: bool)
      modifies this
      ensures State() == R.Publish(old(State()), next, state, fate) && (ok <==> fate.Committed?)
    {
      if Durably(fate) {
        disk := Written(disk, next, state);
      }
      if fate.Uncertain? {
        halted := true;
        return false;
      }
      if fate.Rejected? {
        return false;
      }
      if next.Some? {
        var changed := Changed(next.value);
        catalog := next.value;
        if changed < |next.value| {
          cursor, sendGrant := changed, true;
        }
      }
      return true;
    }

    method Create(sequence: nat, kind: nat, fate: Fate) returns (id: Option<ObjectId>)
      modifies this
      ensures State() == R.Create(old(State()), sequence, kind, fate)
      ensures id.Some? ==> id.value == ObjectId(space, sequence) && id.value in disk.states && id.value !in old(disk).states
    {
      hide FirstChange, FindScope;
      if halted || sequence == 0 || |catalog| >= OBJECTS_MAX || ObjectId(space, sequence) in disk.states || Init(kind).None? {
        return None;
      }
      var made := ObjectId(space, sequence);
      var ok := Publish(Some(catalog + [Scope(made, 1, kind, 0, true)]), Some((made, Init(kind).value)), fate);
      return if ok then Some(made) else None;
    }

    /** The scope is the node's own, and has these rights already or may have a new epoch written. */
    static ghost predicate MayShare(catalog: Catalog, id: ObjectId, rights: nat, fate: Fate) {
      && FindScope(catalog, id).Some?
      && var s := catalog[FindScope(catalog, id).value];
         s.owned && (s.rights == rights || (s.epoch != 0xFFFF_FFFF_FFFF_FFFF && fate.Committed?))
    }

    method Share(id: ObjectId, rights: nat, fate: Fate) returns (ok: bool)
      modifies this
      ensures State() == R.Share(old(State()), id, rights, fate)
      ensures ok ==> FindScope(catalog, id).Some? && catalog[FindScope(catalog, id).value].rights == rights
      ensures ok <==> !old(halted) && rights <= 3 && MayShare(old(catalog), id, rights, fate)
    {
      hide FirstChange;
      var i := Find(id);
      if halted || i.None? || rights > 3 || !catalog[i.value].owned {
        return false;
      }
      var s := catalog[i.value];
      if s.rights == rights {
        return true;
      }
      if s.epoch == UINT64_MAX {
        return false;
      }
      FoundAgain(catalog, i.value, s.(epoch := s.epoch + 1, rights := rights));
      ok := Publish(Some(catalog[i.value := s.(epoch := s.epoch + 1, rights := rights)]), None, fate);
    }

    method Change(id: ObjectId, e: Edit, fate: Fate) returns (ok: bool)
      modifies this
      ensures State() == R.Change(old(State()), id, e, fate)
      ensures ok ==> id in old(disk).states && Edited(old(disk).states[id], index, e).Some?
                     && id in disk.states && disk.states[id] == Edited(old(disk).states[id], index, e).value
    {
      hide FirstChange, FindScope, Edited;
      var i := Find(id);
      if halted || i.None? || !(catalog[i.value].owned || Writes(catalog[i.value].rights)) {
        return false;
      }
      var s := catalog[i.value];
      if s.id !in disk.states || KindOf(disk.states[s.id]) != s.kind {
        return false;
      }
      var after := Edited(disk.states[s.id], index, e);
      if after.None? {
        return false;
      }
      ok := Publish(None, Some((id, after.value)), fate);
    }

    /** The next grant or summary in turn. */
    method NextPacket() returns (packet: Option<Message>)
      modifies this
      ensures (State(), packet) == R.NextPacket(old(State()))
    {
      hide PacketFor;
      if halted || catalog == [] {
        return None;
      }
      var tries := 2 * |catalog|;
      while tries > 0
        invariant 0 <= tries && catalog == old(catalog) && disk == old(disk) && halted == old(halted)
        invariant Rotate(State(), tries) == R.NextPacket(old(State()))
        decreases tries
      {
        if cursor >= |catalog| {
          return None;
        }
        packet := PacketFor(Node(space, peerSpace, index, disk, catalog, cursor, sendGrant, halted), catalog[cursor], sendGrant);
        if packet.None? && !sendGrant && catalog[cursor].rights != 0 {
          return None;
        }
        cursor := cursor + 1;
        if cursor >= |catalog| {
          cursor, sendGrant := 0, !sendGrant;
        }
        if packet.Some? {
          return;
        }
        tries := tries - 1;
      }
      return None;
    }

    method AcceptGrant(m: Message, fate: Fate) returns (ok: bool)
      requires m.Grant?
      modifies this
      ensures State() == R.AcceptGrant(old(State()), m, fate)
      ensures FindScope(old(catalog), m.id).None? ==>
                (ok <==> m.id.high == peerSpace && (m.rights == 0 || (|old(catalog)| < 8 && m.id !in old(disk).states && Init(m.kind).Some? && fate.Committed?)))
      ensures FindScope(old(catalog), m.id).Some? ==>
                var s := old(catalog)[FindScope(old(catalog), m.id).value];
                ok <==> m.id.high == peerSpace && !s.owned && s.kind == m.kind
                        && if m.epoch == s.epoch then s.rights == m.rights else m.epoch > s.epoch && fate.Committed?
    {
      hide FirstChange, FindScope, Init;
      if m.id.high != peerSpace {
        return false;
      }
      var i := Find(m.id);
      if i.Some? {
        var s := catalog[i.value];
        if s.owned || s.kind != m.kind || m.epoch < s.epoch {
          return false;
        }
        if m.epoch == s.epoch {
          return s.rights == m.rights;
        }
        ok := Publish(Some(catalog[i.value := s.(epoch := m.epoch, rights := m.rights)]), None, fate);
        return;
      }
      if m.rights == 0 {
        return true;
      }
      if |catalog| >= OBJECTS_MAX || m.id in disk.states || Init(m.kind).None? {
        return false;
      }
      ok := Publish(Some(catalog + [Scope(m.id, m.epoch, m.kind, m.rights, false)]), Some((m.id, Init(m.kind).value)), fate);
    }

    method Receive(m: Message, fate: Fate) returns (reply: Option<Message>)
      modifies this
      ensures (State(), reply) == R.Receive(old(State()), m, fate)
    {
      hide FirstChange, FindScope, Init, Merge, Valid;
      reply := None;
      if halted {
        return;
      }
      if m.Grant? {
        var _ := AcceptGrant(m, fate);
        return;
      }
      var i := Find(m.id);
      if i.None? {
        return;
      }
      var s := catalog[i.value];
      if s.kind != m.kind || s.epoch != m.epoch || (if m.Update? then !CanReceive(s) else s.rights == 0) {
        return;
      }
      if s.id !in disk.states || KindOf(disk.states[s.id]) != s.kind || !Valid(disk.states[s.id]) {
        return;
      }
      var state := disk.states[s.id];
      if m.Update? {
        var merged := Merge(state, m.state);
        if merged.Some? && merged.value != state {
          var _ := Publish(None, Some((m.id, merged.value)), fate);
        }
        return;
      }
      if CanSend(s) && m.state != state {
        reply := Some(Update(s.id, s.kind, s.epoch, state));
      }
    }
  }

  lemma {:induction false} FoundAgain(c: Catalog, i: nat, s: Scope)
    requires FindScope(c, s.id) == Some(i)
    ensures i < |c| && FindScope(c[i := s], s.id) == Some(i)
  {
    if i > 0 {
      assert c[i := s][1..] == c[1..][i - 1 := s];
      FoundAgain(c[1..], i - 1, s);
    }
  }
}
