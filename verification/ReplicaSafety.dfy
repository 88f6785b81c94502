/** What every run of two replicas keeps, however messages are lost, repeated or reordered. */
module ReplicaSafety {
  import opened ObjectIds
  import opened Crdts
  import opened Replicas

  /** The rights an owner granted, epoch by epoch from 1. */
  datatype Past = Past(kind: nat, rights: seq<nat>)

  type Pasts = map<ObjectId, Past>

  type Logs = map<ObjectId, Log>

  /**
   * Two nodes, everything each ever sent, what each owner ever granted and what was ever written.
   * The step functions move the node `n`; the other node moves after swapping roles.
   */
  datatype System = System(n: Node, p: Node, out: set<Message>, pout: set<Message>, past: Pasts, ppast: Pasts, logs: Logs)

  function Swap(s: System): System {
    System(s.p, s.n, s.pout, s.out, s.ppast, s.past, s.logs)
  }

  function LogOf(logs: Logs, id: ObjectId): Log {
    if id in logs then logs[id] else NO_LOG
  }

  // ---- The invariant ---------------------------------------------------------------------------

  ghost predicate DistinctIds(c: Catalog) {
    forall i, j :: 0 <= i < j < |c| ==> c[i].id != c[j].id
  }

  ghost predicate ScopeOk(n: Node, s: Scope) {
    && s.epoch >= 1 && s.rights <= 3 && s.id.high == (if s.owned then n.space else n.peerSpace)
    && s.id in n.disk.states && KindOf(n.disk.states[s.id]) == s.kind
  }

  ghost predicate DiskOk(n: Node) {
    && n.space != n.peerSpace && n.index <= 1 && DistinctIds(n.disk.catalog)
    && (forall i :: 0 <= i < |n.disk.catalog| ==> ScopeOk(n, n.disk.catalog[i]))
    && (forall id :: id in n.disk.states ==> FindScope(n.disk.catalog, id).Some?)
  }

  /** Unless it stopped, a node remembers what its store holds. */
  ghost predicate MemoryOk(n: Node) {
    !n.halted ==> n.catalog == n.disk.catalog
  }

  ghost predicate WasGranted(past: Pasts, id: ObjectId, kind: nat, epoch: nat, rights: nat) {
    && id in past && past[id].kind == kind && 1 <= epoch <= |past[id].rights|
    && past[id].rights[epoch - 1] == rights <= 3
  }

  /** If owned, this is the newest of what was granted. */
  ghost predicate NewestGrant(s: Scope, past: Pasts) {
    s.owned ==> WasGranted(past, s.id, s.kind, s.epoch, s.rights) && |past[s.id].rights| == s.epoch
  }

  /** If not owned, this was granted once. */
  ghost predicate SomeGrant(s: Scope, past: Pasts) {
    !s.owned ==> WasGranted(past, s.id, s.kind, s.epoch, s.rights)
  }

  /** The owner's scopes are the newest of what it granted. */
  ghost predicate Owns(n: Node, past: Pasts) {
    && (forall i :: 0 <= i < |n.disk.catalog| ==> NewestGrant(n.disk.catalog[i], past))
    && (forall id :: id in past ==> FindScope(n.disk.catalog, id).Some?)
  }

  /** The other side's scopes are something it granted. */
  ghost predicate Holds(p: Node, past: Pasts) {
    forall i :: 0 <= i < |p.disk.catalog| ==> SomeGrant(p.disk.catalog[i], past)
  }

  /** How many edits of an object a node has made. */
  ghost function Mine(n: Node, id: ObjectId): nat {
    if id in n.disk.states && n.index < |n.disk.states[id].vector| then n.disk.states[id].vector[n.index] else 0
  }

  ghost function Clock(n: Node, id: ObjectId): nat {
    if id in n.disk.states then TimeOf(n.disk.states[id]) else 0
  }

  /** A state that is part of the history. */
  ghost predicate Sound(n: Node, p: Node, log: Log, id: ObjectId, state: State) {
    && Valid(state) && Known(state, log)
    && n.index <= 1 && p.index <= 1 && state.vector[n.index] <= Mine(n, id) && state.vector[p.index] <= Mine(p, id)
  }

  ghost predicate StatesOk(n: Node, p: Node, logs: Logs) {
    forall id :: id in n.disk.states ==> Sound(n, p, LogOf(logs, id), id, n.disk.states[id])
  }

  /** A node's own writes are behind it. */
  ghost predicate Clocked(n: Node, logs: Logs) {
    forall id :: id in logs ==> WithinClock(logs[id], n.index, Clock(n, id), Mine(n, id))
  }

  /** A state was sent under a grant that allowed its sender to send it. */
  ghost predicate SentUnder(m: Message, past: Pasts, owner: bool) {
    && m.id in past && past[m.id].kind == m.kind && 1 <= m.epoch <= |past[m.id].rights|
    && (m.Update? ==> if owner then Reads(past[m.id].rights[m.epoch - 1]) else Writes(past[m.id].rights[m.epoch - 1]))
  }

  ghost predicate MessageOk(m: Message, n: Node, p: Node, past: Pasts, ppast: Pasts, logs: Logs) {
    if m.Grant? then m.id.high == n.space && WasGranted(past, m.id, m.kind, m.epoch, m.rights)
    else
      && KindOf(m.state) == m.kind && Sound(n, p, LogOf(logs, m.id), m.id, m.state)
      && if m.id.high == n.space then SentUnder(m, past, true) else m.id.high == p.space && SentUnder(m, ppast, false)
  }

  ghost predicate MessagesOk(out: set<Message>, n: Node, p: Node, past: Pasts, ppast: Pasts, logs: Logs) {
    forall m :: m in out ==> MessageOk(m, n, p, past, ppast, logs)
  }

  ghost predicate NodeOk(n: Node, p: Node, past: Pasts, ppast: Pasts, logs: Logs) {
    DiskOk(n) && Owns(n, past) && Holds(n, ppast) && StatesOk(n, p, logs) && Clocked(n, logs)
  }

  ghost predicate DisksOk(s: System) {
    && s.n.index + s.p.index == 1 && s.n.peerSpace == s.p.space && s.p.peerSpace == s.n.space
    && NodeOk(s.n, s.p, s.past, s.ppast, s.logs) && NodeOk(s.p, s.n, s.ppast, s.past, s.logs)
    && MessagesOk(s.out, s.n, s.p, s.past, s.ppast, s.logs) && MessagesOk(s.pout, s.p, s.n, s.ppast, s.past, s.logs)
  }

  ghost predicate Inv(s: System) {
    DisksOk(s) && MemoryOk(s.n) && MemoryOk(s.p)
  }

  lemma SwapKeeps(s: System)
    requires Inv(s)
    ensures Inv(Swap(s))
  {
    hide NodeOk, MessagesOk;
  }

  // ---- Events ----------------------------------------------------------------------------------

  datatype Event =
    | Creates(sequence: nat, kind: nat, fate: Fate)
    | Shares(id: ObjectId, rights: nat, fate: Fate)
    | Changes(id: ObjectId, edit: Edit, fate: Fate)
    | Sends
    | Hears(m: Message, fate: Fate)
    | Reopens

  /** The grants on record once the catalog on disk is this. */
  ghost function Recorded(past: Pasts, before: Disk, after: Disk, id: ObjectId): Pasts {
    var i := FindScope(after.catalog, id);
    if before.catalog == after.catalog || i.None? then past
    else
      var s := after.catalog[i.value];
      past[id := Past(s.kind, (if id in past then past[id].rights else []) + [s.rights])]
  }

  ghost function Noted(logs: Logs, id: ObjectId, disk: Disk): Logs {
    if id in disk.states then logs[id := LogAdd(LogOf(logs, id), disk.states[id])] else logs
  }

  ghost function Step(s: System, e: Event): System {
    match e
    case Creates(sequence, kind, fate) =>
      var n := Create(s.n, sequence, kind, fate);
      s.(n := n, past := Recorded(s.past, s.n.disk, n.disk, ObjectId(s.n.space, sequence)))
    case Shares(id, rights, fate) =>
      var n := Share(s.n, id, rights, fate);
      s.(n := n, past := Recorded(s.past, s.n.disk, n.disk, id))
    case Changes(id, edit, fate) =>
      var n := Change(s.n, id, edit, fate);
      s.(n := n, logs := if n.disk == s.n.disk then s.logs else Noted(s.logs, id, n.disk))
    case Sends =>
      var (n, packet) := NextPacket(s.n);
      s.(n := n, out := if packet.Some? then s.out + {packet.value} else s.out)
    case Hears(m, fate) =>
      if m !in s.pout then s
      else
        var (n, reply) := Receive(s.n, m, fate);
        s.(n := n, out := if reply.Some? then s.out + {reply.value} else s.out)
    case Reopens => s.(n := Reopen(s.n))
  }

  // ---- Growing ---------------------------------------------------------------------------------

  ghost predicate SameSelf(n: Node, after: Node) {
    after.space == n.space && after.peerSpace == n.peerSpace && after.index == n.index
  }

  ghost predicate NodeGrows(n: Node, after: Node) {
    SameSelf(n, after) && forall id: ObjectId :: Mine(n, id) <= Mine(after, id) && Clock(n, id) <= Clock(after, id)
  }

  ghost predicate PastGrows(past: Pasts, after: Pasts) {
    forall id :: id in past ==> id in after && after[id].kind == past[id].kind && past[id].rights <= after[id].rights
  }

  ghost predicate LogsGrow(logs: Logs, after: Logs) {
    forall id: ObjectId :: Extends(LogOf(logs, id), LogOf(after, id))
  }

  lemma SoundGrows(n: Node, p: Node, logs: Logs, n': Node, p': Node, logs': Logs, id: ObjectId, state: State)
    requires Sound(n, p, LogOf(logs, id), id, state) && NodeGrows(n, n') && NodeGrows(p, p') && LogsGrow(logs, logs')
    ensures Sound(n', p', LogOf(logs', id), id, state)
  {
    hide Known, Extends, Valid, Mine, Clock, LogOf;
    assert Mine(n, id) <= Mine(n', id) && Mine(p, id) <= Mine(p', id);
    assert Extends(LogOf(logs, id), LogOf(logs', id));
    KnownStays(state, LogOf(logs, id), LogOf(logs', id));
  }

  lemma MessagesGrow(out: set<Message>, n: Node, p: Node, past: Pasts, ppast: Pasts, logs: Logs,
                     n': Node, p': Node, past': Pasts, ppast': Pasts, logs': Logs)
    requires MessagesOk(out, n, p, past, ppast, logs) && NodeGrows(n, n') && NodeGrows(p, p')
    requires PastGrows(past, past') && PastGrows(ppast, ppast') && LogsGrow(logs, logs')
    ensures MessagesOk(out, n', p', past', ppast', logs')
  {
    hide Sound, Mine, Clock, LogOf, LogsGrow;
    forall m | m in out
      ensures MessageOk(m, n', p', past', ppast', logs')
    {
      assert MessageOk(m, n, p, past, ppast, logs);
      if !m.Grant? {
        SoundGrows(n, p, logs, n', p', logs', m.id, m.state);
      }
    }
  }

  lemma GrowsSelf(n: Node, past: Pasts, logs: Logs)
    ensures NodeGrows(n, n) && PastGrows(past, past) && LogsGrow(logs, logs)
  {
  }

  /** The other side only depends on what grows. */
  lemma PeerKept(p: Node, n: Node, ppast: Pasts, past: Pasts, logs: Logs, n': Node, past': Pasts, logs': Logs)
    requires NodeOk(p, n, ppast, past, logs) && NodeGrows(n, n') && PastGrows(past, past') && LogsGrow(logs, logs')
    requires forall id :: id in logs' ==> WithinClock(logs'[id], p.index, Clock(p, id), Mine(p, id))
    ensures NodeOk(p, n', ppast, past', logs')
  {
    hide Sound, Mine, Clock, LogsGrow, DiskOk, Owns, NodeGrows, WithinClock;
    GrowsSelf(p, past, logs);
    forall id | id in p.disk.states
      ensures Sound(p, n', LogOf(logs', id), id, p.disk.states[id])
    {
      SoundGrows(p, n, logs, p, n', logs', id, p.disk.states[id]);
    }
  }

  /** What is left to show of a step that changes the moving node's store. */
  lemma StepKeeps(s: System, t: System)
    requires DisksOk(s) && t.p == s.p && t.ppast == s.ppast && t.pout == s.pout
    requires NodeGrows(s.n, t.n) && PastGrows(s.past, t.past) && LogsGrow(s.logs, t.logs)
    requires NodeOk(t.n, t.p, t.past, t.ppast, t.logs) && Clocked(t.p, t.logs)
    requires forall m :: m in t.out ==> m in s.out || MessageOk(m, t.n, t.p, t.past, t.ppast, t.logs)
    ensures DisksOk(t)
  {
    hide NodeOk, MessageOk, LogsGrow, PastGrows, NodeGrows, WithinClock;
    GrowsSelf(s.p, s.ppast, s.logs);
    MessagesGrow(s.out, s.n, s.p, s.past, s.ppast, s.logs, t.n, t.p, t.past, t.ppast, t.logs);
    MessagesGrow(s.pout, s.p, s.n, s.ppast, s.past, s.logs, t.p, t.n, t.ppast, t.past, t.logs);
    PeerKept(s.p, s.n, s.ppast, s.past, s.logs, t.n, t.past, t.logs);
    assert SameSelf(s.n, t.n) by {
      SelfGrows(s.n, t.n);
    }
  }

  lemma SelfGrows(n: Node, after: Node)
    requires NodeGrows(n, after)
    ensures SameSelf(n, after)
  {
  }

  // ---- Stores ----------------------------------------------------------------------------------

  /** The invariant looks at a node's store, not at its memory. */
  lemma SameDisk(n: Node, after: Node, p: Node, past: Pasts, ppast: Pasts, logs: Logs)
    requires SameSelf(n, after) && after.disk == n.disk
    ensures NodeGrows(n, after) && (NodeOk(n, p, past, ppast, logs) ==> NodeOk(after, p, past, ppast, logs))
    ensures forall m :: MessageOk(m, n, p, past, ppast, logs) ==> MessageOk(m, after, p, past, ppast, logs)
  {
    hide Known, Valid, WithinClock, FindScope;
    assert forall id: ObjectId :: Mine(after, id) == Mine(n, id) && Clock(after, id) == Clock(n, id);
    if NodeOk(n, p, past, ppast, logs) {
      assert DiskOk(after) by {
        forall i | 0 <= i < |n.disk.catalog|
          ensures ScopeOk(after, after.disk.catalog[i])
        {
          assert ScopeOk(n, n.disk.catalog[i]);
        }
      }
      forall id | id in n.disk.states
        ensures Sound(after, p, LogOf(logs, id), id, after.disk.states[id])
      {
        assert Sound(n, p, LogOf(logs, id), id, n.disk.states[id]);
      }
    }
  }

  lemma MemoryStep(s: System, n: Node, out: set<Message>)
    requires DisksOk(s) && SameSelf(s.n, n) && n.disk == s.n.disk
    requires forall m :: m in out ==> m in s.out || MessageOk(m, s.n, s.p, s.past, s.ppast, s.logs)
    ensures DisksOk(s.(n := n, out := out))
  {
    hide NodeOk, MessageOk, LogsGrow, PastGrows, NodeGrows, WithinClock;
    SameDisk(s.n, n, s.p, s.past, s.ppast, s.logs);
    GrowsSelf(s.n, s.past, s.logs);
    PeerClocked(s);
    StepKeeps(s, s.(n := n, out := out));
  }

  lemma PeerClocked(s: System)
    requires DisksOk(s)
    ensures Clocked(s.p, s.logs) && Clocked(s.n, s.logs)
  {
  }

  lemma Published(n: Node, catalog: Option<Catalog>, state: Option<(ObjectId, State)>, fate: Fate)
    requires MemoryOk(n) && !n.halted
    ensures var after := Publish(n, catalog, state, fate);
            && SameSelf(n, after) && MemoryOk(after)
            && after.disk == if Durably(fate) then Written(n.disk, catalog, state) else n.disk
  {
    hide FirstChange;
  }

  lemma {:induction false} FindAppended(c: Catalog, s: Scope, id: ObjectId)
    ensures FindScope(c + [s], id) ==
            if FindScope(c, id).Some? then FindScope(c, id) else if s.id == id then Some(|c|) else None
  {
    if c == [] {
      assert [s][1..] == [];
      assert FindScope([], id) == None;
    } else {
      assert (c + [s])[1..] == c[1..] + [s];
      FindAppended(c[1..], s, id);
    }
  }

  lemma {:induction false} FindReplaced(c: Catalog, i: nat, s: Scope, id: ObjectId)
    requires i < |c| && s.id == c[i].id
    ensures FindScope(c[i := s], id) == FindScope(c, id)
  {
    if i > 0 {
      assert c[i := s][1..] == c[1..][i - 1 := s];
      FindReplaced(c[1..], i - 1, s, id);
    } else {
      assert c[i := s][1..] == c[1..];
    }
  }

  /** A new scope with a fresh state. */
  ghost function WithScope(n: Node, s: Scope, state: State): Node {
    n.(disk := Disk(n.disk.catalog + [s], n.disk.states[s.id := state]))
  }

  lemma AddScopeOk(n: Node, s: Scope, state: State)
    requires DiskOk(n) && s.id !in n.disk.states && s.epoch >= 1 && s.rights <= 3
    requires s.id.high == (if s.owned then n.space else n.peerSpace) && KindOf(state) == s.kind
    ensures DiskOk(WithScope(n, s, state))
  {
    var after := WithScope(n, s, state);
    var c := after.disk.catalog;
    forall i | 0 <= i < |c|
      ensures ScopeOk(after, c[i]) && (i < |n.disk.catalog| ==> c[i].id != s.id)
    {
      if i < |n.disk.catalog| {
        assert ScopeOk(n, n.disk.catalog[i]);
      }
    }
    forall id | id in after.disk.states
      ensures FindScope(c, id).Some?
    {
      FindAppended(n.disk.catalog, s, id);
    }
  }

  /** A fresh state is part of any history. */
  lemma InitIsSound(n: Node, p: Node, log: Log, id: ObjectId, kind: nat)
    requires Init(kind).Some? && n.index <= 1 && p.index <= 1
    ensures Sound(n, p, log, id, Init(kind).value) && KindOf(Init(kind).value) == kind && TimeOf(Init(kind).value) == 0
    ensures Init(kind).value.vector == [0, 0]
  {
  }

  lemma AddScopeStates(n: Node, p: Node, logs: Logs, s: Scope, kind: nat)
    requires StatesOk(n, p, logs) && Clocked(n, logs) && s.id !in n.disk.states && Init(kind).Some? && n.index <= 1 && p.index <= 1
    ensures var after := WithScope(n, s, Init(kind).value);
            NodeGrows(n, after) && StatesOk(after, p, logs) && Clocked(after, logs)
  {
    hide Known, Valid, WithinClock, FindScope, Init;
    var after := WithScope(n, s, Init(kind).value);
    InitIsSound(after, p, LogOf(logs, s.id), s.id, kind);
    forall id: ObjectId
      ensures Mine(after, id) == Mine(n, id) && Clock(after, id) == Clock(n, id)
    {
    }
    forall id | id in after.disk.states && id != s.id
      ensures Sound(after, p, LogOf(logs, id), id, after.disk.states[id])
    {
      assert Sound(n, p, LogOf(logs, id), id, n.disk.states[id]);
    }
  }

  // ---- Creating --------------------------------------------------------------------------------

  lemma OwnsCreated(n: Node, past: Pasts, ppast: Pasts, id: ObjectId, kind: nat, state: State)
    requires DiskOk(n) && Owns(n, past) && Holds(n, ppast) && id !in n.disk.states
    ensures id !in past && PastGrows(past, past[id := Past(kind, [0])])
    ensures var after := WithScope(n, Scope(id, 1, kind, 0, true), state);
            Owns(after, past[id := Past(kind, [0])]) && Holds(after, ppast)
  {
    hide FindScope;
    var s := Scope(id, 1, kind, 0, true);
    var after, past' := WithScope(n, s, state), past[id := Past(kind, [0])];
    var c := n.disk.catalog;
    NotListed(n, id);
    forall k | 0 <= k < |c|
      ensures NewestGrant(c[k], past') && SomeGrant(c[k], ppast)
    {
      assert ScopeOk(n, c[k]) && NewestGrant(c[k], past) && SomeGrant(c[k], ppast);
    }
    forall x | x in past'
      ensures FindScope(after.disk.catalog, x).Some?
    {
      FindAppended(c, s, x);
    }
  }

  lemma CreateKeeps(s: System, sequence: nat, kind: nat, fate: Fate)
    requires Inv(s)
    ensures Inv(Step(s, Creates(sequence, kind, fate)))
  {
    hide NodeOk, MessagesOk, LogsGrow, PastGrows, NodeGrows, WithinClock, Init, FirstChange;
    var n, id := s.n, ObjectId(s.n.space, sequence);
    var t := Step(s, Creates(sequence, kind, fate));
    if t.n.disk == n.disk {
      Unrecorded(s.past, n.disk, t.n.disk, id);
      CreateMemory(n, sequence, kind, fate);
      MemoryStep(s, t.n, s.out);
    } else {
      Published(n, Some(n.catalog + [Scope(id, 1, kind, 0, true)]), Some((id, Init(kind).value)), fate);
      CreateDisk(s, t, id, kind);
    }
  }

  lemma Unrecorded(past: Pasts, before: Disk, after: Disk, id: ObjectId)
    requires before == after
    ensures Recorded(past, before, after, id) == past
  {
  }

  lemma RecordedNew(past: Pasts, before: Disk, after: Disk, id: ObjectId, i: nat)
    requires before.catalog != after.catalog && id !in past && i < |after.catalog| && FindScope(after.catalog, id) == Some(i)
    ensures Recorded(past, before, after, id) == past[id := Past(after.catalog[i].kind, [after.catalog[i].rights])]
  {
    assert [] + [after.catalog[i].rights] == [after.catalog[i].rights];
  }

  lemma CreateMemory(n: Node, sequence: nat, kind: nat, fate: Fate)
    requires MemoryOk(n)
    ensures var after := Create(n, sequence, kind, fate); SameSelf(n, after) && MemoryOk(after)
  {
    var id := ObjectId(n.space, sequence);
    if !n.halted && Init(kind).Some? {
      Published(n, Some(n.catalog + [Scope(id, 1, kind, 0, true)]), Some((id, Init(kind).value)), fate);
    }
  }

  lemma CreateDisk(s: System, t: System, id: ObjectId, kind: nat)
    requires DisksOk(s) && id.high == s.n.space && id !in s.n.disk.states && Init(kind).Some?
    requires t == s.(n := t.n, past := Recorded(s.past, s.n.disk, t.n.disk, id)) && SameSelf(s.n, t.n)
    requires t.n.disk == WithScope(s.n, Scope(id, 1, kind, 0, true), Init(kind).value).disk
    ensures DisksOk(t)
  {
    hide MessagesOk, LogsGrow, PastGrows, NodeGrows, WithinClock, Init, StatesOk, Clocked, Owns, Holds, DiskOk;
    var n, sc, state := s.n, Scope(id, 1, kind, 0, true), Init(kind).value;
    IndexOk(s);
    InitIsSound(n, s.p, NO_LOG, id, kind);
    AddScopeOk(n, sc, state);
    OwnsCreated(n, s.past, s.ppast, id, kind, state);
    AddScopeStates(n, s.p, s.logs, sc, kind);
    FindAppended(n.disk.catalog, sc, id);
    NotListed(n, id);
    assert |t.n.disk.catalog| == |n.disk.catalog| + 1 && t.n.disk.catalog[|n.disk.catalog|] == sc;
    RecordedNew(s.past, n.disk, t.n.disk, id, |n.disk.catalog|);
    SameDisk(WithScope(n, sc, state), t.n, s.p, t.past, s.ppast, s.logs);
    GrowsSelf(n, s.past, s.logs);
    GrowsOn(n, WithScope(n, sc, state), t.n);
    StepKeeps(s, t);
  }

  lemma NotListed(n: Node, id: ObjectId)
    requires DiskOk(n) && id !in n.disk.states
    ensures FindScope(n.disk.catalog, id) == None
  {
    var i := FindScope(n.disk.catalog, id);
    assert i.Some? ==> ScopeOk(n, n.disk.catalog[i.value]);
  }

  lemma IndexOk(s: System)
    requires DisksOk(s)
    ensures s.n.index <= 1 && s.p.index <= 1 && s.n.index != s.p.index
  {
  }

  lemma GrowsOn(a: Node, b: Node, c: Node)
    requires NodeGrows(a, b) && NodeGrows(b, c)
    ensures NodeGrows(a, c)
  {
    hide Mine, Clock;
    forall id: ObjectId
      ensures Mine(a, id) <= Mine(c, id) && Clock(a, id) <= Clock(c, id)
    {
      assert Mine(a, id) <= Mine(b, id) <= Mine(c, id) && Clock(a, id) <= Clock(b, id) <= Clock(c, id);
    }
  }

  // ---- Sharing ---------------------------------------------------------------------------------

  ghost function WithRights(n: Node, i: nat, epoch: nat, rights: nat): Node
    requires i < |n.disk.catalog|
  {
    n.(disk := n.disk.(catalog := n.disk.catalog[i := n.disk.catalog[i].(epoch := epoch, rights := rights)]))
  }

  lemma RightsOk(n: Node, p: Node, logs: Logs, i: nat, epoch: nat, rights: nat)
    requires DiskOk(n) && StatesOk(n, p, logs) && Clocked(n, logs) && i < |n.disk.catalog| && epoch >= 1 && rights <= 3
    ensures var after := WithRights(n, i, epoch, rights);
            NodeGrows(n, after) && DiskOk(after) && StatesOk(after, p, logs) && Clocked(after, logs)
  {
    hide Known, Valid, WithinClock, FindScope;
    var after := WithRights(n, i, epoch, rights);
    var c := after.disk.catalog;
    assert forall id: ObjectId :: Mine(after, id) == Mine(n, id) && Clock(after, id) == Clock(n, id);
    forall k | 0 <= k < |c|
      ensures ScopeOk(after, c[k])
    {
      assert ScopeOk(n, n.disk.catalog[k]);
    }
    forall id | id in after.disk.states
      ensures FindScope(c, id).Some? && Sound(after, p, LogOf(logs, id), id, after.disk.states[id])
    {
      FindReplaced(n.disk.catalog, i, c[i], id);
      assert Sound(n, p, LogOf(logs, id), id, n.disk.states[id]);
    }
  }

  lemma OwnedIsNoGrant(s: Scope, past: Pasts)
    ensures s.owned ==> SomeGrant(s, past)
  {
  }

  lemma StillNewest(s: Scope, past: Pasts, after: Pasts)
    requires NewestGrant(s, past) && (s.id in past ==> s.id in after && after[s.id] == past[s.id])
    ensures NewestGrant(s, after)
  {
  }

  lemma OwnsShared(n: Node, past: Pasts, ppast: Pasts, i: nat, rights: nat)
    requires DiskOk(n) && Owns(n, past) && Holds(n, ppast) && i < |n.disk.catalog| && n.disk.catalog[i].owned && rights <= 3
    ensures n.disk.catalog[i].id in past
    ensures var id := n.disk.catalog[i].id;
            var past' := past[id := Past(n.disk.catalog[i].kind, past[id].rights + [rights])];
            var after := WithRights(n, i, n.disk.catalog[i].epoch + 1, rights);
            PastGrows(past, past') && Owns(after, past') && Holds(after, ppast)
  {
    hide FindScope, SomeGrant;
    var c, id := n.disk.catalog, n.disk.catalog[i].id;
    assert NewestGrant(c[i], past);
    var past' := past[id := Past(c[i].kind, past[id].rights + [rights])];
    var after := WithRights(n, i, c[i].epoch + 1, rights);
    forall k | 0 <= k < |c|
      ensures NewestGrant(after.disk.catalog[k], past') && SomeGrant(after.disk.catalog[k], ppast)
    {
      assert NewestGrant(c[k], past) && SomeGrant(c[k], ppast);
      assert k < i || i < k || k == i;
      if k != i {
        StillNewest(c[k], past, past');
      } else {
        OwnedIsNoGrant(after.disk.catalog[i], ppast);
      }
    }
    forall x | x in past'
      ensures FindScope(after.disk.catalog, x).Some?
    {
      FindReplaced(c, i, after.disk.catalog[i], x);
    }
  }

  lemma FindFirst(n: Node, i: nat)
    requires DiskOk(n) && i < |n.disk.catalog|
    ensures FindScope(n.disk.catalog, n.disk.catalog[i].id) == Some(i)
  {
    var k := FindScope(n.disk.catalog, n.disk.catalog[i].id);
    assert k.Some? && (k.value < i || i < k.value || k.value == i);
  }

  lemma ShareKeeps(s: System, id: ObjectId, rights: nat, fate: Fate)
    requires Inv(s)
    ensures Inv(Step(s, Shares(id, rights, fate)))
  {
    hide NodeOk, MessagesOk, LogsGrow, PastGrows, NodeGrows, WithinClock, FirstChange, FindScope;
    var n, i := s.n, FindScope(s.n.catalog, id);
    var t := Step(s, Shares(id, rights, fate));
    ShareMemory(n, id, rights, fate);
    if t.n.disk == n.disk {
      Unrecorded(s.past, n.disk, t.n.disk, id);
      MemoryStep(s, t.n, s.out);
    } else {
      var sc := n.catalog[i.value];
      Published(n, Some(n.catalog[i.value := sc.(epoch := sc.epoch + 1, rights := rights)]), None, fate);
      ShareDisk(s, t, i.value, rights);
    }
  }

  lemma ShareMemory(n: Node, id: ObjectId, rights: nat, fate: Fate)
    requires MemoryOk(n)
    ensures var after := Share(n, id, rights, fate); SameSelf(n, after) && MemoryOk(after)
  {
    var i := FindScope(n.catalog, id);
    if !n.halted && i.Some? {
      var sc := n.catalog[i.value];
      Published(n, Some(n.catalog[i.value := sc.(epoch := sc.epoch + 1, rights := rights)]), None, fate);
    }
  }

  lemma ShareDisk(s: System, t: System, i: nat, rights: nat)
    requires DisksOk(s) && i < |s.n.disk.catalog| && s.n.disk.catalog[i].owned && rights <= 3
    requires t == s.(n := t.n, past := Recorded(s.past, s.n.disk, t.n.disk, s.n.disk.catalog[i].id)) && SameSelf(s.n, t.n)
    requires t.n.disk == WithRights(s.n, i, s.n.disk.catalog[i].epoch + 1, rights).disk
    ensures DisksOk(t)
  {
    hide MessagesOk, LogsGrow, PastGrows, NodeGrows, WithinClock, StatesOk, Clocked, Owns, Holds, DiskOk;
    var n, sc := s.n, s.n.disk.catalog[i];
    var after := WithRights(n, i, sc.epoch + 1, rights);
    RightsOk(n, s.p, s.logs, i, sc.epoch + 1, rights);
    OwnsShared(n, s.past, s.ppast, i, rights);
    FindFirst(n, i);
    FindReplaced(n.disk.catalog, i, after.disk.catalog[i], sc.id);
    assert t.n.disk.catalog[i].epoch != n.disk.catalog[i].epoch;
    assert t.past == s.past[sc.id := Past(sc.kind, s.past[sc.id].rights + [rights])];
    SameDisk(after, t.n, s.p, t.past, s.ppast, s.logs);
    GrowsSelf(n, s.past, s.logs);
    GrowsOn(n, after, t.n);
    StepKeeps(s, t);
  }

  // ---- States ----------------------------------------------------------------------------------

  ghost function WithState(n: Node, id: ObjectId, state: State): Node {
    n.(disk := n.disk.(states := n.disk.states[id := state]))
  }

  /** A later state of the same kind in place of an earlier one. */
  ghost predicate Later(n: Node, before: State, after: State) {
    && n.index <= 1 && Valid(before) && Valid(after) && KindOf(after) == KindOf(before) && TimeOf(before) <= TimeOf(after)
    && before.vector[n.index] <= after.vector[n.index]
  }

  lemma StateGrows(n: Node, id: ObjectId, state: State)
    requires id in n.disk.states && Later(n, n.disk.states[id], state)
    ensures NodeGrows(n, WithState(n, id, state))
  {
    hide Valid;
    VectorLength(n.disk.states[id], state);
  }

  lemma StateOk(n: Node, p: Node, past: Pasts, ppast: Pasts, logs: Logs, id: ObjectId, state: State, logs': Logs)
    requires NodeOk(n, p, past, ppast, logs) && id in n.disk.states && Later(n, n.disk.states[id], state) && LogsGrow(logs, logs')
    requires Sound(WithState(n, id, state), p, LogOf(logs', id), id, state)
    requires forall x :: x in logs' && x != id ==> x in logs && logs'[x] == logs[x]
    requires WithinClock(LogOf(logs', id), n.index, TimeOf(state), state.vector[n.index])
    ensures NodeGrows(n, WithState(n, id, state)) && NodeOk(WithState(n, id, state), p, past, ppast, logs')
  {
    hide Known, Valid, WithinClock, FindScope, LogsGrow, NewestGrant, SomeGrant, DiskOk, NodeGrows, Sound;
    var after := WithState(n, id, state);
    StateGrows(n, id, state);
    StateDisk(n, id, state);
    GrowsSelf(p, past, logs);
    forall x | x in n.disk.states && x != id
      ensures Sound(after, p, LogOf(logs', x), x, after.disk.states[x])
    {
      SoundGrows(n, p, logs, after, p, logs', x, n.disk.states[x]);
    }
    VectorLength(n.disk.states[id], state);
  }

  lemma VectorLength(a: State, b: State)
    ensures Valid(a) ==> |a.vector| == 2
    ensures Valid(b) ==> |b.vector| == 2
  {
  }

  lemma StateDisk(n: Node, id: ObjectId, state: State)
    requires DiskOk(n) && id in n.disk.states && KindOf(state) == KindOf(n.disk.states[id])
    ensures DiskOk(WithState(n, id, state))
  {
    hide FindScope;
    var after := WithState(n, id, state);
    forall i | 0 <= i < |n.disk.catalog|
      ensures ScopeOk(after, n.disk.catalog[i])
    {
      assert ScopeOk(n, n.disk.catalog[i]);
    }
  }

  // ---- Changing --------------------------------------------------------------------------------

  lemma ChangeMemory(n: Node, id: ObjectId, e: Edit, fate: Fate)
    requires MemoryOk(n)
    ensures var after := Change(n, id, e, fate); SameSelf(n, after) && MemoryOk(after)
  {
    hide Edited, FindScope;
    if !n.halted && id in n.disk.states && Edited(n.disk.states[id], n.index, e).Some? {
      Published(n, None, Some((id, Edited(n.disk.states[id], n.index, e).value)), fate);
    }
  }

  /** A change on disk is an edit of what was there. */
  lemma ChangeWrites(n: Node, id: ObjectId, e: Edit, fate: Fate)
    requires MemoryOk(n) && Change(n, id, e, fate).disk != n.disk
    ensures id in n.disk.states && Edited(n.disk.states[id], n.index, e).Some?
    ensures Change(n, id, e, fate).disk == WithState(n, id, Edited(n.disk.states[id], n.index, e).value).disk
  {
    hide Edited;
  }

  lemma ChangeKeeps(s: System, id: ObjectId, e: Edit, fate: Fate)
    requires Inv(s)
    ensures Inv(Step(s, Changes(id, e, fate)))
  {
    hide NodeOk, MessagesOk, LogsGrow, PastGrows, NodeGrows, WithinClock, Change, Edited;
    var n, t := s.n, Step(s, Changes(id, e, fate));
    ChangeMemory(n, id, e, fate);
    if t.n.disk == n.disk {
      MemoryStep(s, t.n, s.out);
    } else {
      ChangeWrites(n, id, e, fate);
      ChangeDisk(s, t, id, e);
    }
  }

  lemma EditLogs(n: Node, p: Node, logs: Logs, id: ObjectId, e: Edit)
    requires StatesOk(n, p, logs) && Clocked(n, logs) && Clocked(p, logs) && id in n.disk.states && n.index + p.index == 1
    requires Edited(n.disk.states[id], n.index, e).Some?
    ensures var state := Edited(n.disk.states[id], n.index, e).value;
            var logs' := logs[id := LogAdd(LogOf(logs, id), state)];
            && LogsGrow(logs, logs') && Clocked(p, logs') && Later(n, n.disk.states[id], state)
            && Sound(WithState(n, id, state), p, LogOf(logs', id), id, state)
            && WithinClock(LogOf(logs', id), n.index, TimeOf(state), state.vector[n.index])
  {
    hide Edited, LogAdd, WithinClock, Known, Valid, Extends;
    var before, log := n.disk.states[id], LogOf(logs, id);
    var state := Edited(before, n.index, e).value;
    var logs' := logs[id := LogAdd(log, state)];
    assert Sound(n, p, log, id, before);
    VectorLength(before, state);
    NoLogClock(n.index, Clock(n, id), Mine(n, id));
    NoLogClock(p.index, Clock(p, id), Mine(p, id));
    EditIsFresh(before, n.index, e, log);
    EditElsewhere(before, n.index, e, log, p.index, Clock(p, id), Mine(p, id));
    forall x: ObjectId
      ensures Extends(LogOf(logs, x), LogOf(logs', x))
    {
      ExtendsSelf(LogOf(logs, x));
    }
  }

  lemma NoLogClock(node: nat, timestamp: nat, counter: nat)
    ensures WithinClock(NO_LOG, node, timestamp, counter)
  {
  }

  lemma ExtendsSelf(log: Log)
    ensures Extends(log, log)
  {
  }

  lemma ChangeDisk(s: System, t: System, id: ObjectId, e: Edit)
    requires DisksOk(s) && id in s.n.disk.states && Edited(s.n.disk.states[id], s.n.index, e).Some? && SameSelf(s.n, t.n)
    requires t == s.(n := t.n, logs := Noted(s.logs, id, t.n.disk))
    requires t.n.disk == WithState(s.n, id, Edited(s.n.disk.states[id], s.n.index, e).value).disk
    ensures DisksOk(t)
  {
    hide MessagesOk, LogsGrow, PastGrows, NodeGrows, WithinClock, StatesOk, Clocked, Owns, Holds, DiskOk, Edited, LogAdd, Later, Sound;
    var n, state := s.n, Edited(s.n.disk.states[id], s.n.index, e).value;
    var after := WithState(n, id, state);
    EditLogs(n, s.p, s.logs, id, e);
    GrowsSelf(n, s.past, s.logs);
    StateOk(n, s.p, s.past, s.ppast, s.logs, id, state, t.logs);
    SameDisk(after, t.n, s.p, s.past, s.ppast, t.logs);
    GrowsOn(n, after, t.n);
    StepKeeps(s, t);
  }

  // ---- Sending ---------------------------------------------------------------------------------

  /** The rotation moves the cursor and says what some scope has to say. */
  lemma {:induction false} RotateFrom(n: Node, tries: nat)
    ensures var (after, packet) := Rotate(n, tries);
            && SameSelf(n, after) && after.disk == n.disk && after.catalog == n.catalog && after.halted == n.halted
            && (packet.Some? ==> exists i, grants :: 0 <= i < |n.catalog| && PacketFor(n, n.catalog[i], grants) == packet)
    decreases tries
  {
    if tries > 0 && n.cursor < |n.catalog| {
      var next := Advanced(n);
      RotateFrom(next, tries - 1);
      assert forall s, grants :: PacketFor(next, s, grants) == PacketFor(n, s, grants);
    }
  }

  lemma ScopeFacts(s: System, i: nat)
    requires DisksOk(s) && i < |s.n.disk.catalog|
    ensures var sc := s.n.disk.catalog[i];
            && NewestGrant(sc, s.past) && SomeGrant(sc, s.ppast) && ScopeOk(s.n, sc)
            && Sound(s.n, s.p, LogOf(s.logs, sc.id), sc.id, s.n.disk.states[sc.id])
            && sc.id.high == (if sc.owned then s.n.space else s.p.space) && s.n.space != s.p.space
  {
    hide Known, Valid, WithinClock, FindScope, MessagesOk, WasGranted;
    assert ScopeOk(s.n, s.n.disk.catalog[i]);
  }

  lemma PacketOk(s: System, i: nat, grants: bool)
    requires DisksOk(s) && i < |s.n.disk.catalog|
    ensures var packet := PacketFor(s.n, s.n.disk.catalog[i], grants);
            packet.Some? ==> MessageOk(packet.value, s.n, s.p, s.past, s.ppast, s.logs)
  {
    hide DisksOk, Sound, LogOf, Valid;
    ScopeFacts(s, i);
  }

  lemma SendKeeps(s: System)
    requires Inv(s)
    ensures Inv(Step(s, Sends))
  {
    hide NodeOk, MessageOk, MessagesOk, Rotate, PacketFor;
    var n, t := s.n, Step(s, Sends);
    RotateFrom(n, 2 * |n.catalog|);
    forall m | m in t.out && m !in s.out
      ensures MessageOk(m, s.n, s.p, s.past, s.ppast, s.logs)
    {
      var i, grants :| 0 <= i < |n.catalog| && PacketFor(n, n.catalog[i], grants) == Some(m);
      PacketOk(s, i, grants);
    }
    MemoryStep(s, t.n, t.out);
  }

  lemma ReopenKeeps(s: System)
    requires Inv(s)
    ensures Inv(Step(s, Reopens))
  {
    hide NodeOk, MessageOk, MessagesOk;
    MemoryStep(s, Reopen(s.n), s.out);
  }

  // ---- Hearing a grant ---------------------------------------------------------------------------

  lemma GrantMemory(n: Node, m: Message, fate: Fate)
    requires MemoryOk(n) && !n.halted && m.Grant?
    ensures var after := AcceptGrant(n, m, fate); SameSelf(n, after) && MemoryOk(after)
  {
    hide FindScope, FirstChange, Init;
    var i := FindScope(n.catalog, m.id);
    if i.Some? {
      var s := n.catalog[i.value];
      Published(n, Some(n.catalog[i.value := s.(epoch := m.epoch, rights := m.rights)]), None, fate);
    } else if Init(m.kind).Some? {
      Published(n, Some(n.catalog + [Scope(m.id, m.epoch, m.kind, m.rights, false)]), Some((m.id, Init(m.kind).value)), fate);
    }
  }

  lemma GrantWrites(n: Node, m: Message, fate: Fate)
    requires MemoryOk(n) && !n.halted && m.Grant? && AcceptGrant(n, m, fate).disk != n.disk
    ensures var i, disk := FindScope(n.disk.catalog, m.id), AcceptGrant(n, m, fate).disk;
            if i.Some? then !n.disk.catalog[i.value].owned && disk == WithRights(n, i.value, m.epoch, m.rights).disk
                            && n.disk.catalog[i.value].kind == m.kind
            else m.id !in n.disk.states && Init(m.kind).Some?
                 && disk == WithScope(n, Scope(m.id, m.epoch, m.kind, m.rights, false), Init(m.kind).value).disk
  {
    hide FirstChange, Init, FindScope;
  }

  lemma HeldRights(n: Node, past: Pasts, ppast: Pasts, i: nat, epoch: nat, rights: nat)
    requires DiskOk(n) && Owns(n, past) && Holds(n, ppast) && i < |n.disk.catalog| && !n.disk.catalog[i].owned
    requires WasGranted(ppast, n.disk.catalog[i].id, n.disk.catalog[i].kind, epoch, rights)
    ensures Owns(WithRights(n, i, epoch, rights), past) && Holds(WithRights(n, i, epoch, rights), ppast)
  {
    hide FindScope, WasGranted;
    var c, after := n.disk.catalog, WithRights(n, i, epoch, rights);
    forall x | x in past
      ensures FindScope(after.disk.catalog, x).Some?
    {
      FindReplaced(c, i, after.disk.catalog[i], x);
    }
  }

  lemma HeldScope(n: Node, past: Pasts, ppast: Pasts, s: Scope, state: State)
    requires Owns(n, past) && Holds(n, ppast) && !s.owned && WasGranted(ppast, s.id, s.kind, s.epoch, s.rights)
    ensures Owns(WithScope(n, s, state), past) && Holds(WithScope(n, s, state), ppast)
  {
    hide FindScope, WasGranted;
    var after := WithScope(n, s, state);
    forall x | x in past
      ensures FindScope(after.disk.catalog, x).Some?
    {
      FindAppended(n.disk.catalog, s, x);
    }
  }

  lemma GrantDisk(s: System, m: Message, after: Node)
    requires DisksOk(s) && m.Grant? && m.id.high == s.p.space && WasGranted(s.ppast, m.id, m.kind, m.epoch, m.rights)
    requires var i := FindScope(s.n.disk.catalog, m.id);
             if i.Some? then !s.n.disk.catalog[i.value].owned && after == WithRights(s.n, i.value, m.epoch, m.rights)
                             && s.n.disk.catalog[i.value].kind == m.kind
             else m.id !in s.n.disk.states && Init(m.kind).Some?
                  && after == WithScope(s.n, Scope(m.id, m.epoch, m.kind, m.rights, false), Init(m.kind).value)
    ensures NodeGrows(s.n, after) && NodeOk(after, s.p, s.past, s.ppast, s.logs)
  {
    hide MessagesOk, LogsGrow, PastGrows, NodeGrows, WithinClock, StatesOk, Clocked, Owns, Holds, DiskOk, Init, FindScope;
    var i := FindScope(s.n.disk.catalog, m.id);
    if i.Some? {
      RightsOk(s.n, s.p, s.logs, i.value, m.epoch, m.rights);
      HeldRights(s.n, s.past, s.ppast, i.value, m.epoch, m.rights);
    } else {
      var sc := Scope(m.id, m.epoch, m.kind, m.rights, false);
      IndexOk(s);
      InitIsSound(s.n, s.p, NO_LOG, m.id, m.kind);
      AddScopeOk(s.n, sc, Init(m.kind).value);
      AddScopeStates(s.n, s.p, s.logs, sc, m.kind);
      HeldScope(s.n, s.past, s.ppast, sc, Init(m.kind).value);
    }
  }

  lemma DiskStep(s: System, middle: Node, n: Node)
    requires DisksOk(s) && SameSelf(s.n, n) && n.disk == middle.disk && SameSelf(s.n, middle)
    requires NodeGrows(s.n, middle) && NodeOk(middle, s.p, s.past, s.ppast, s.logs)
    ensures DisksOk(s.(n := n))
  {
    hide NodeOk, MessageOk, MessagesOk, LogsGrow, PastGrows, NodeGrows, WithinClock;
    SameDisk(middle, n, s.p, s.past, s.ppast, s.logs);
    GrowsOn(s.n, middle, n);
    GrowsSelf(s.n, s.past, s.logs);
    PeerClocked(s);
    StepKeeps(s, s.(n := n));
  }

  lemma HearGrantKeeps(s: System, m: Message, fate: Fate)
    requires Inv(s) && m in s.pout && m.Grant? && !s.n.halted
    ensures Inv(Step(s, Hears(m, fate)))
  {
    hide NodeOk, LogsGrow, PastGrows, NodeGrows, AcceptGrant, WasGranted, Init, FindScope;
    var n, after := s.n, AcceptGrant(s.n, m, fate);
    assert MessageOk(m, s.p, s.n, s.ppast, s.past, s.logs);
    GrantMemory(n, m, fate);
    if after.disk == n.disk {
      MemoryStep(s, after, s.out);
    } else {
      GrantWrites(n, m, fate);
      var i := FindScope(n.disk.catalog, m.id);
      var middle := if i.Some? then WithRights(n, i.value, m.epoch, m.rights)
                    else WithScope(n, Scope(m.id, m.epoch, m.kind, m.rights, false), Init(m.kind).value);
      GrantDisk(s, m, middle);
      DiskStep(s, middle, after);
    }
  }

  // ---- Hearing a state -----------------------------------------------------------------------------

  /** Merging in a state of the same history. */
  lemma MergeSound(s: System, id: ObjectId, state: State)
    requires DisksOk(s) && id in s.n.disk.states && Sound(s.p, s.n, LogOf(s.logs, id), id, state)
    requires Merge(s.n.disk.states[id], state).Some?
    ensures var merged := Merge(s.n.disk.states[id], state).value;
            NodeGrows(s.n, WithState(s.n, id, merged)) && NodeOk(WithState(s.n, id, merged), s.p, s.past, s.ppast, s.logs)
  {
    hide MessagesOk, LogsGrow, Known, WithinClock, Owns, Holds, DiskOk, Merge, Clash, Valid, NodeGrows;
    var n, mine, log := s.n, s.n.disk.states[id], LogOf(s.logs, id);
    var merged := Merge(mine, state).value;
    assert Sound(n, s.p, log, id, mine);
    MergeIsValid(mine, state);
    MergeExactly(mine, state, log);
    MergeTime(mine, state);
    VectorLength(mine, merged);
    IndexOk(s);
    NoLogClock(n.index, Clock(n, id), Mine(n, id));
    LaterClock(log, n.index, TimeOf(mine), TimeOf(merged), Mine(n, id));
    GrowsSelf(n, s.past, s.logs);
    StateOk(n, s.p, s.past, s.ppast, s.logs, id, merged, s.logs);
  }

  lemma MergeTime(a: State, b: State)
    requires Merge(a, b).Some?
    ensures TimeOf(a) <= TimeOf(Merge(a, b).value)
  {
  }

  lemma LaterClock(log: Log, node: nat, timestamp: nat, later: nat, counter: nat)
    requires WithinClock(log, node, timestamp, counter) && timestamp <= later
    ensures WithinClock(log, node, later, counter)
  {
  }

  /** An update on disk is a merge of what was there. */
  lemma UpdateWrites(n: Node, m: Message, fate: Fate)
    requires MemoryOk(n) && !n.halted && m.Update?
    ensures Receive(n, m, fate).1 == None && SameSelf(n, Receive(n, m, fate).0) && MemoryOk(Receive(n, m, fate).0)
    ensures Receive(n, m, fate).0.disk != n.disk ==>
              && m.id in n.disk.states && Merge(n.disk.states[m.id], m.state).Some?
              && Receive(n, m, fate).0.disk == WithState(n, m.id, Merge(n.disk.states[m.id], m.state).value).disk
  {
    hide Merge, Valid, FindScope, FirstChange;
    if m.id in n.disk.states && Merge(n.disk.states[m.id], m.state).Some? {
      Published(n, None, Some((m.id, Merge(n.disk.states[m.id], m.state).value)), fate);
    }
  }

  lemma HearUpdateKeeps(s: System, m: Message, fate: Fate)
    requires Inv(s) && m in s.pout && m.Update? && !s.n.halted
    ensures Inv(Step(s, Hears(m, fate)))
  {
    hide NodeOk, LogsGrow, PastGrows, NodeGrows, Receive, Sound, Merge;
    var n, after := s.n, Receive(s.n, m, fate).0;
    assert MessageOk(m, s.p, s.n, s.ppast, s.past, s.logs);
    UpdateWrites(n, m, fate);
    if after.disk == n.disk {
      MemoryStep(s, after, s.out);
    } else {
      var middle := WithState(n, m.id, Merge(n.disk.states[m.id], m.state).value);
      MergeSound(s, m.id, m.state);
      DiskStep(s, middle, after);
    }
  }

  lemma HearSummaryKeeps(s: System, m: Message, fate: Fate)
    requires Inv(s) && m in s.pout && m.Summary? && !s.n.halted
    ensures Inv(Step(s, Hears(m, fate)))
  {
    hide DisksOk, Sound, LogOf, Valid, Merge;
    var (after, reply) := Receive(s.n, m, fate);
    var i := FindScope(s.n.catalog, m.id);
    if i.Some? {
      ScopeFacts(s, i.value);
    }
    assert reply.Some? ==> MessageOk(reply.value, s.n, s.p, s.past, s.ppast, s.logs);
    MemoryStep(s, after, if reply.Some? then s.out + {reply.value} else s.out);
  }

  // ---- Every run -------------------------------------------------------------------------------

  lemma EventKeeps(s: System, e: Event)
    requires Inv(s)
    ensures Inv(Step(s, e))
  {
    hide Inv, Create, Share, Change, AcceptGrant, Rotate;
    match e
    case Creates(sequence, kind, fate) => CreateKeeps(s, sequence, kind, fate);
    case Shares(id, rights, fate) => ShareKeeps(s, id, rights, fate);
    case Changes(id, edit, fate) => ChangeKeeps(s, id, edit, fate);
    case Sends => SendKeeps(s);
    case Hears(m, fate) =>
      if m in s.pout && !s.n.halted {
        match m
        case Grant(_, _, _, _) => HearGrantKeeps(s, m, fate);
        case Summary(_, _, _, _) => HearSummaryKeeps(s, m, fate);
        case Update(_, _, _, _) => HearUpdateKeeps(s, m, fate);
      } else {
        assert Step(s, e) == s;
      }
    case Reopens => ReopenKeeps(s);
  }

  /** Two nodes that have shared nothing yet. */
  ghost predicate Fresh(s: System) {
    && s.n.index + s.p.index == 1 && s.n.space != s.p.space && s.n.peerSpace == s.p.space && s.p.peerSpace == s.n.space
    && s.n.disk == s.p.disk == Disk([], map[]) && s.n.catalog == s.p.catalog == []
    && s.out == s.pout == {} && s.past == s.ppast == map[] && s.logs == map[]
  }

  /** One event at either node. */
  datatype Turn = Turn(here: bool, event: Event)

  ghost function Take(s: System, t: Turn): System {
    if t.here then Step(s, t.event) else Swap(Step(Swap(s), t.event))
  }

  ghost function Run(s: System, turns: seq<Turn>): System
    decreases |turns|
  {
    if turns == [] then s else Take(Run(s, turns[..|turns| - 1]), turns[|turns| - 1])
  }

  ghost predicate Reachable(s: System) {
    exists start, turns :: Fresh(start) && s == Run(start, turns)
  }

  lemma {:induction false} RunIsSafe(start: System, turns: seq<Turn>)
    requires Fresh(start)
    ensures Inv(Run(start, turns))
    decreases |turns|
  {
    hide Inv, Step;
    if turns == [] {
      FreshIsSafe(start);
    } else {
      var before, t := Run(start, turns[..|turns| - 1]), turns[|turns| - 1];
      RunIsSafe(start, turns[..|turns| - 1]);
      if t.here {
        EventKeeps(before, t.event);
      } else {
        SwapKeeps(before);
        EventKeeps(Swap(before), t.event);
        SwapKeeps(Step(Swap(before), t.event));
      }
    }
  }

  lemma FreshIsSafe(s: System)
    requires Fresh(s)
    ensures Inv(s)
  {
  }

  lemma ReachableIsSafe(s: System)
    requires Reachable(s)
    ensures Inv(s)
  {
    hide Inv, Run;
    var start, turns :| Fresh(start) && s == Run(start, turns);
    RunIsSafe(start, turns);
  }
}
