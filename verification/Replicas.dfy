/**
 * Objects shared between two nodes. The owner grants and withdraws rights under rising epochs;
 * both sides exchange summaries and, where they differ, states to merge.
 */
module Replicas {
  import opened ObjectIds
  import opened Crdts

  const OBJECTS_MAX: nat := 8

  predicate Reads(rights: nat) {
    rights % 2 == 1
  }

  predicate Writes(rights: nat) {
    rights / 2 % 2 == 1
  }

  datatype Scope = Scope(id: ObjectId, epoch: nat, kind: nat, rights: nat, owned: bool)

  type Catalog = seq<Scope>

  /** What the store holds. */
  datatype Disk = Disk(catalog: Catalog, states: map<ObjectId, State>)

  datatype Node = Node(space: nat, peerSpace: nat, index: nat, disk: Disk, catalog: Catalog, cursor: nat, sendGrant: bool, halted: bool)

  /** A summary carries a digest; digests are as good as the state. */
  datatype Message =
    | Grant(id: ObjectId, kind: nat, epoch: nat, rights: nat)
    | Summary(id: ObjectId, kind: nat, epoch: nat, state: State)
    | Update(id: ObjectId, kind: nat, epoch: nat, state: State)

  /** What the store reports for a batch, and whether an uncertain one took effect. */
  datatype Fate = Committed | Rejected | Uncertain(landed: bool)

  predicate Durably(fate: Fate) {
    fate.Committed? || (fate.Uncertain? && fate.landed)
  }

  function FindScope(c: Catalog, id: ObjectId): (i: Option<nat>)
    ensures i.Some? ==> i.value < |c| && c[i.value].id == id
    ensures i.None? ==> forall k :: 0 <= k < |c| ==> c[k].id != id
  {
    if c == [] then None
    else if c[0].id == id then Some(0)
    else
      var rest := FindScope(c[1..], id);
      if rest.None? then None else Some(rest.value + 1)
  }

  /** The first place where two catalogs differ. */
  function FirstChange(a: Catalog, b: Catalog): (i: nat)
    ensures i <= |a|
  {
    if a == [] || b == [] || a[0] != b[0] then 0 else 1 + FirstChange(a[1..], b[1..])
  }

  // ---- Publishing ------------------------------------------------------------------------------

  /** The store with a new catalog, a new state, or both. */
  function Written(d: Disk, catalog: Option<Catalog>, state: Option<(ObjectId, State)>): Disk {
    Disk(if catalog.Some? then catalog.value else d.catalog,
         if state.Some? then d.states[state.value.0 := state.value.1] else d.states)
  }

  function Publish(n: Node, catalog: Option<Catalog>, state: Option<(ObjectId, State)>, fate: Fate): Node {
    var disk := if Durably(fate) then Written(n.disk, catalog, state) else n.disk;
    if fate.Uncertain? then n.(disk := disk, halted := true)
    else if fate.Rejected? || catalog.None? then n.(disk := disk)
    else
      var changed := FirstChange(catalog.value, n.catalog);
      if changed < |catalog.value| then n.(disk := disk, catalog := catalog.value, cursor := changed, sendGrant := true)
      else n.(disk := disk, catalog := catalog.value)
  }

  /** Starting over from what the store holds. */
  function Reopen(n: Node): Node {
    n.(catalog := n.disk.catalog, cursor := 0, sendGrant := true, halted := false)
  }

  // ---- The owner's and the user's calls -----------------------------------------------------------

  function Create(n: Node, sequence: nat, kind: nat, fate: Fate): Node {
    var id := ObjectId(n.space, sequence);
    if n.halted || sequence == 0 || |n.catalog| >= OBJECTS_MAX || id in n.disk.states || Init(kind).None? then n
    else Publish(n, Some(n.catalog + [Scope(id, 1, kind, 0, true)]), Some((id, Init(kind).value)), fate)
  }

  function Share(n: Node, id: ObjectId, rights: nat, fate: Fate): Node {
    var i := FindScope(n.catalog, id);
    if n.halted || i.None? || rights > 3 then n
    else
      var s := n.catalog[i.value];
      if !s.owned || s.rights == rights || s.epoch == UINT64_MAX then n
      else Publish(n, Some(n.catalog[i.value := s.(epoch := s.epoch + 1, rights := rights)]), None, fate)
  }

  function LoadState(n: Node, s: Scope): Option<State> {
    if s.id in n.disk.states && KindOf(n.disk.states[s.id]) == s.kind then Some(n.disk.states[s.id]) else None
  }

  function Change(n: Node, id: ObjectId, e: Edit, fate: Fate): Node {
    var i := FindScope(n.catalog, id);
    if n.halted || i.None? || !(n.catalog[i.value].owned || Writes(n.catalog[i.value].rights)) then n
    else
      var state := LoadState(n, n.catalog[i.value]);
      if state.None? || Edited(state.value, n.index, e).None? then n
      else Publish(n, None, Some((id, Edited(state.value, n.index, e).value)), fate)
  }

  // ---- Packets ---------------------------------------------------------------------------------

  predicate CanSend(s: Scope) {
    if s.owned then Reads(s.rights) else Writes(s.rights)
  }

  predicate CanReceive(s: Scope) {
    if s.owned then Writes(s.rights) else Reads(s.rights)
  }

  /** What one position of the rotation has to say: a grant in one round, a summary in the other. */
  function PacketFor(n: Node, s: Scope, grants: bool): Option<Message> {
    if grants then
      if s.owned && (s.rights != 0 || s.epoch > 1) then Some(Grant(s.id, s.kind, s.epoch, s.rights)) else None
    else if s.rights != 0 && Summable(n, s) then Some(Summary(s.id, s.kind, s.epoch, LoadState(n, s).value))
    else None
  }

  predicate Summable(n: Node, s: Scope) {
    LoadState(n, s).Some? && Valid(LoadState(n, s).value)
  }

  function Advanced(n: Node): Node {
    if n.cursor + 1 >= |n.catalog| then n.(cursor := 0, sendGrant := !n.sendGrant) else n.(cursor := n.cursor + 1)
  }

  /** The next position with something to say, within `tries` positions. */
  function Rotate(n: Node, tries: nat): (Node, Option<Message>)
    decreases tries
  {
    if tries == 0 || n.cursor >= |n.catalog| then (n, None)
    else
      var packet := PacketFor(n, n.catalog[n.cursor], n.sendGrant);
      if packet.Some? then (Advanced(n), packet)
      else if !n.sendGrant && n.catalog[n.cursor].rights != 0 then (n, None)
      else Rotate(Advanced(n), tries - 1)
  }

  function NextPacket(n: Node): (Node, Option<Message>) {
    if n.halted || n.catalog == [] then (n, None) else Rotate(n, 2 * |n.catalog|)
  }

  // ---- Receiving -------------------------------------------------------------------------------

  function AcceptGrant(n: Node, m: Message, fate: Fate): Node
    requires m.Grant?
  {
    var i := FindScope(n.catalog, m.id);
    if m.id.high != n.peerSpace then n
    else if i.Some? then
      var s := n.catalog[i.value];
      if s.owned || s.kind != m.kind || m.epoch <= s.epoch then n
      else Publish(n, Some(n.catalog[i.value := s.(epoch := m.epoch, rights := m.rights)]), None, fate)
    else if m.rights == 0 || |n.catalog| >= OBJECTS_MAX || m.id in n.disk.states || Init(m.kind).None? then n
    else Publish(n, Some(n.catalog + [Scope(m.id, m.epoch, m.kind, m.rights, false)]), Some((m.id, Init(m.kind).value)), fate)
  }

  /** One incoming message: the new node, and the reply if any. */
  function Receive(n: Node, m: Message, fate: Fate): (Node, Option<Message>) {
    if n.halted then (n, None)
    else if m.Grant? then (AcceptGrant(n, m, fate), None)
    else
      var i := FindScope(n.catalog, m.id);
      if i.None? then (n, None)
      else
        var s := n.catalog[i.value];
        var state := LoadState(n, s);
        if s.kind != m.kind || s.epoch != m.epoch || state.None? || !Valid(state.value)
           || (if m.Update? then !CanReceive(s) else s.rights == 0) then (n, None)
        else if m.Update? then
          var merged := Merge(state.value, m.state);
          if merged.None? || merged.value == state.value then (n, None)
          else (Publish(n, None, Some((m.id, merged.value)), fate), None)
        else if !CanSend(s) || m.state == state.value then (n, None)
        else (n, Some(Update(s.id, s.kind, s.epoch, state.value)))
  }
}
