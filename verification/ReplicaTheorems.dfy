/** What two replicas may rely on. */
module ReplicaTheorems {
  import opened ObjectIds
  import opened Crdts
  import opened Replicas
  import opened ReplicaSafety

  // ---- Grants ----------------------------------------------------------------------------------

  /** What a peer believes it was granted, its owner granted in that very epoch, and no later than now. */
  lemma GrantAgreement(s: System, i: nat)
    requires Reachable(s) && i < |s.p.disk.catalog| && !s.p.disk.catalog[i].owned
    ensures var held := s.p.disk.catalog[i];
            var k := FindScope(s.n.disk.catalog, held.id);
            && k.Some? && WasGranted(s.past, held.id, held.kind, held.epoch, held.rights)
            && var own := s.n.disk.catalog[k.value];
               && own.owned && own.kind == held.kind && held.epoch <= own.epoch
               && (held.epoch == own.epoch ==> held.rights == own.rights)
  {
    hide Reachable, Inv, FindScope;
    ReachableIsSafe(s);
    GrantHeld(s, i);
  }

  lemma GrantHeld(s: System, i: nat)
    requires Inv(s) && i < |s.p.disk.catalog| && !s.p.disk.catalog[i].owned
    ensures var held := s.p.disk.catalog[i];
            var k := FindScope(s.n.disk.catalog, held.id);
            && k.Some? && WasGranted(s.past, held.id, held.kind, held.epoch, held.rights)
            && var own := s.n.disk.catalog[k.value];
               && own.owned && own.kind == held.kind && held.epoch <= own.epoch
               && (held.epoch == own.epoch ==> held.rights == own.rights)
  {
    hide DisksOk, Sound, FindScope;
    SwapKeeps(s);
    ScopeFacts(Swap(s), i);
    var k := FindScope(s.n.disk.catalog, s.p.disk.catalog[i].id);
    PastIsListed(s, s.p.disk.catalog[i].id);
    ScopeFacts(s, k.value);
  }

  lemma PastIsListed(s: System, id: ObjectId)
    requires DisksOk(s) && id in s.past
    ensures FindScope(s.n.disk.catalog, id).Some?
  {
  }

  /** A message changes an object only under the grant now in force, sent by someone it allowed. */
  lemma MergedUnderGrant(s: System, m: Message, fate: Fate, id: ObjectId)
    requires Reachable(s) && m in s.pout && id in s.n.disk.states
    requires Step(s, Hears(m, fate)).n.disk.states[id] != s.n.disk.states[id]
    ensures m.Update? && m.id == id && FindScope(s.n.disk.catalog, id).Some?
    ensures var sc := s.n.disk.catalog[FindScope(s.n.disk.catalog, id).value];
            && m.epoch == sc.epoch && CanReceive(sc)
            && (sc.owned ==> Writes(sc.rights) && SentUnder(m, s.past, false))
  {
    hide Reachable, NodeOk, Sound, Merge, Valid, Init;
    ReachableIsSafe(s);
    assert MessageOk(m, s.p, s.n, s.ppast, s.past, s.logs);
    if m.Grant? && !s.n.halted {
      GrantsKeepStates(s.n, m, fate, id);
    } else {
      var i := FindScope(s.n.disk.catalog, id);
      if i.Some? {
        ScopeFacts(s, i.value);
      }
    }
  }

  lemma GrantsKeepStates(n: Node, m: Message, fate: Fate, id: ObjectId)
    requires m.Grant? && id in n.disk.states
    ensures id in AcceptGrant(n, m, fate).disk.states && AcceptGrant(n, m, fate).disk.states[id] == n.disk.states[id]
  {
    hide FindScope, FirstChange;
  }

  // ---- Withdrawal ------------------------------------------------------------------------------

  /** The owner itself does nothing about this object. */
  predicate LeavesAlone(t: Turn, id: ObjectId) {
    t.here ==> !(t.event.Shares? && t.event.id == id) && !(t.event.Changes? && t.event.id == id)
  }

  ghost predicate Withdrawn(n: Node, id: ObjectId, scope: Scope, state: State) {
    && FindScope(n.disk.catalog, id).Some? && n.disk.catalog[FindScope(n.disk.catalog, id).value] == scope
    && scope.owned && !Writes(scope.rights) && id in n.disk.states && n.disk.states[id] == state
  }

  lemma CatalogKept(c: Catalog, s: Scope, i: nat, id: ObjectId)
    requires FindScope(c, id).Some?
    ensures FindScope(c + [s], id) == FindScope(c, id) && (c + [s])[FindScope(c, id).value] == c[FindScope(c, id).value]
    ensures i < |c| && s.id == c[i].id && c[i].id != id ==>
              FindScope(c[i := s], id) == FindScope(c, id) && c[i := s][FindScope(c, id).value] == c[FindScope(c, id).value]
  {
    FindAppended(c, s, id);
    if i < |c| && s.id == c[i].id {
      FindReplaced(c, i, s, id);
    }
  }

  lemma CreateLeaves(n: Node, sequence: nat, kind: nat, fate: Fate, id: ObjectId, scope: Scope, state: State)
    requires MemoryOk(n) && Withdrawn(n, id, scope, state)
    ensures Withdrawn(Create(n, sequence, kind, fate), id, scope, state)
  {
    hide FindScope, FirstChange, Init;
    CatalogKept(n.disk.catalog, Scope(ObjectId(n.space, sequence), 1, kind, 0, true), 0, id);
  }

  lemma ShareLeaves(n: Node, other: ObjectId, rights: nat, fate: Fate, id: ObjectId, scope: Scope, state: State)
    requires MemoryOk(n) && Withdrawn(n, id, scope, state) && other != id
    ensures Withdrawn(Share(n, other, rights, fate), id, scope, state)
  {
    hide FindScope, FirstChange;
    var i := FindScope(n.catalog, other);
    if i.Some? && !n.halted {
      var s := n.catalog[i.value];
      CatalogKept(n.disk.catalog, s.(epoch := s.epoch + 1, rights := rights), i.value, id);
    }
  }

  lemma ChangeLeaves(n: Node, other: ObjectId, e: Edit, fate: Fate, id: ObjectId, scope: Scope, state: State)
    requires MemoryOk(n) && Withdrawn(n, id, scope, state) && other != id
    ensures Withdrawn(Change(n, other, e, fate), id, scope, state)
  {
    hide FindScope, FirstChange, Edited;
  }

  lemma GrantLeaves(n: Node, m: Message, fate: Fate, id: ObjectId, scope: Scope, state: State)
    requires MemoryOk(n) && !n.halted && Withdrawn(n, id, scope, state) && m.Grant?
    ensures Withdrawn(AcceptGrant(n, m, fate), id, scope, state)
  {
    hide FindScope, FirstChange, Init;
    var i := FindScope(n.catalog, m.id);
    if i.Some? {
      CatalogKept(n.disk.catalog, n.catalog[i.value].(epoch := m.epoch, rights := m.rights), i.value, id);
    } else {
      CatalogKept(n.disk.catalog, Scope(m.id, m.epoch, m.kind, m.rights, false), 0, id);
    }
  }

  lemma ReceiveLeaves(n: Node, m: Message, fate: Fate, id: ObjectId, scope: Scope, state: State)
    requires MemoryOk(n) && !n.halted && Withdrawn(n, id, scope, state) && !m.Grant?
    ensures Withdrawn(Receive(n, m, fate).0, id, scope, state)
  {
    hide FindScope, FirstChange, Merge, Valid;
  }

  lemma EventLeaves(s: System, e: Event, id: ObjectId, scope: Scope, state: State)
    requires MemoryOk(s.n) && Withdrawn(s.n, id, scope, state) && LeavesAlone(Turn(true, e), id)
    ensures Withdrawn(Step(s, e).n, id, scope, state)
  {
    hide Withdrawn, MemoryOk;
    match e
    case Creates(sequence, kind, fate) => CreateLeaves(s.n, sequence, kind, fate, id, scope, state);
    case Shares(other, rights, fate) => ShareLeaves(s.n, other, rights, fate, id, scope, state);
    case Changes(other, edit, fate) => ChangeLeaves(s.n, other, edit, fate, id, scope, state);
    case Sends =>
      RotateFrom(s.n, 2 * |s.n.catalog|);
      SameWithdrawn(s.n, NextPacket(s.n).0, id, scope, state);
    case Hears(m, fate) =>
      if !s.n.halted {
        if m.Grant? {
          GrantLeaves(s.n, m, fate, id, scope, state);
        } else {
          ReceiveLeaves(s.n, m, fate, id, scope, state);
        }
      }
    case Reopens => SameWithdrawn(s.n, Reopen(s.n), id, scope, state);
  }

  lemma SameWithdrawn(n: Node, after: Node, id: ObjectId, scope: Scope, state: State)
    requires Withdrawn(n, id, scope, state) && after.disk == n.disk
    ensures Withdrawn(after, id, scope, state)
  {
  }

  /**
   * Withdrawing the right to write takes effect at once: whatever is still in flight and whatever
   * the peer does, the object stays as it was until its owner acts on it again.
   */
  lemma {:induction false} WithdrawalIsFinal(s: System, turns: seq<Turn>, id: ObjectId, scope: Scope, state: State)
    requires Inv(s) && Withdrawn(s.n, id, scope, state) && forall k :: 0 <= k < |turns| ==> LeavesAlone(turns[k], id)
    ensures Withdrawn(Run(s, turns).n, id, scope, state) && Inv(Run(s, turns))
    decreases |turns|
  {
    hide Inv, Withdrawn, Step, LeavesAlone;
    if turns != [] {
      var before, t := Run(s, turns[..|turns| - 1]), turns[|turns| - 1];
      WithdrawalIsFinal(s, turns[..|turns| - 1], id, scope, state);
      if t.here {
        InvMemory(before);
        EventLeaves(before, t.event, id, scope, state);
        EventKeeps(before, t.event);
      } else {
        SwapKeeps(before);
        EventKeeps(Swap(before), t.event);
        SwapKeeps(Step(Swap(before), t.event));
        PeerUntouched(Swap(before), t.event);
      }
    }
  }

  lemma InvMemory(s: System)
    requires Inv(s)
    ensures MemoryOk(s.n)
  {
  }

  lemma PeerUntouched(s: System, e: Event)
    ensures Step(s, e).p == s.p
  {
  }

  // ---- Catalogs ----------------------------------------------------------------------------------

  ghost predicate Fits(n: Node) {
    |n.catalog| <= 8 && |n.disk.catalog| <= 8
  }

  lemma StepFits(s: System, e: Event)
    requires Fits(s.n)
    ensures Fits(Step(s, e).n)
  {
    hide FindScope, FirstChange, Merge, Valid, Init, Edited, Rotate;
    if e.Sends? {
      RotateFrom(s.n, 2 * |s.n.catalog|);
    }
  }

  /** No run makes a catalog outgrow its eight entries. */
  lemma {:induction false} CatalogsFit(start: System, turns: seq<Turn>)
    requires Fresh(start)
    ensures Fits(Run(start, turns).n) && Fits(Run(start, turns).p)
    decreases |turns|
  {
    hide Step;
    if turns != [] {
      var before, t := Run(start, turns[..|turns| - 1]), turns[|turns| - 1];
      CatalogsFit(start, turns[..|turns| - 1]);
      PeerUntouched(before, t.event);
      PeerUntouched(Swap(before), t.event);
      if t.here {
        StepFits(before, t.event);
      } else {
        StepFits(Swap(before), t.event);
      }
    }
  }

  // ---- Repetition --------------------------------------------------------------------------------

  lemma GrantAgain(n: Node, m: Message)
    requires m.Grant? && !n.halted
    ensures AcceptGrant(AcceptGrant(n, m, Committed), m, Committed) == AcceptGrant(n, m, Committed)
  {
    hide FindScope, FirstChange, Init;
    var i := FindScope(n.catalog, m.id);
    if i.Some? {
      FindReplaced(n.catalog, i.value, n.catalog[i.value].(epoch := m.epoch, rights := m.rights), m.id);
    } else {
      FindAppended(n.catalog, Scope(m.id, m.epoch, m.kind, m.rights, false), m.id);
    }
  }

  /** A message heard twice has no more effect than once, and the second time not even on the order of what is sent. */
  lemma HearingAgain(n: Node, m: Message)
    ensures var once := Receive(n, m, Committed).0;
            Receive(once, m, Committed).0 == once
  {
    hide FindScope, FirstChange, Merge, Valid, Init, AcceptGrant;
    if !n.halted {
      if m.Grant? {
        GrantAgain(n, m);
        GrantStays(n, m);
      } else if m.Update? && FindScope(n.catalog, m.id).Some? && m.id in n.disk.states {
        var state := n.disk.states[m.id];
        if Merge(state, m.state).Some? {
          MergeAbsorbs(state, m.state);
          MergeCommutes(m.state, Merge(state, m.state).value);
          MergeIsValid(state, m.state);
        }
      }
    }
  }

  lemma GrantStays(n: Node, m: Message)
    requires m.Grant? && !n.halted
    ensures !AcceptGrant(n, m, Committed).halted
  {
    hide FindScope, FirstChange, Init;
  }

  // ---- What is sent first ------------------------------------------------------------------------

  lemma {:induction false} FirstChangeAt(c: Catalog, i: nat, s: Scope)
    requires i < |c| && s != c[i]
    ensures FirstChange(c[i := s], c) == i
  {
    if i > 0 {
      assert c[i := s][1..] == c[1..][i - 1 := s];
      FirstChangeAt(c[1..], i - 1, s);
    }
  }

  /** Rights that change go out with the very next packet. */
  lemma SharePrompts(n: Node, id: ObjectId, rights: nat)
    requires !n.halted && FindScope(n.catalog, id).Some? && rights <= 3
    requires var s := n.catalog[FindScope(n.catalog, id).value]; s.owned && s.rights != rights && 1 <= s.epoch < UINT64_MAX
    ensures var s := n.catalog[FindScope(n.catalog, id).value];
            NextPacket(Share(n, id, rights, Committed)).1 == Some(Grant(id, s.kind, s.epoch + 1, rights))
  {
    hide FindScope, FirstChange;
    var i := FindScope(n.catalog, id).value;
    FirstChangeAt(n.catalog, i, n.catalog[i].(epoch := n.catalog[i].epoch + 1, rights := rights));
  }

  lemma {:induction false} RotateToGrant(n: Node, tries: nat, i: nat)
    requires n.sendGrant && n.cursor <= i < |n.catalog| && i - n.cursor < tries && PacketFor(n, n.catalog[i], true).Some?
    requires forall k :: n.cursor <= k < i ==> PacketFor(n, n.catalog[k], true).None?
    ensures Rotate(n, tries).1 == PacketFor(n, n.catalog[i], true)
    decreases tries
  {
    if n.cursor < i {
      assert forall k :: n.cursor <= k <= i ==> PacketFor(Advanced(n), n.catalog[k], true) == PacketFor(n, n.catalog[k], true);
      RotateToGrant(Advanced(n), tries - 1, i);
    }
  }

  /** After a restart the grants go out before anything else, in the order of the catalog. */
  lemma ReopenPrompts(n: Node, i: nat)
    requires i < |n.disk.catalog|
    requires var s := n.disk.catalog[i]; s.owned && (s.rights != 0 || s.epoch > 1)
    requires forall k :: 0 <= k < i ==> var s := n.disk.catalog[k]; !(s.owned && (s.rights != 0 || s.epoch > 1))
    ensures var s := n.disk.catalog[i]; NextPacket(Reopen(n)).1 == Some(Grant(s.id, s.kind, s.epoch, s.rights))
  {
    hide Rotate;
    RotateToGrant(Reopen(n), 2 * |n.disk.catalog|, i);
  }

  // ---- Convergence -----------------------------------------------------------------------------

  /** Only a full set ever refuses a merge: two states of one object never contradict each other. */
  lemma MergeRefusedExactly(s: System, m: Message)
    requires Reachable(s) && m in s.pout && !m.Grant? && m.id in s.n.disk.states && KindOf(s.n.disk.states[m.id]) == m.kind
    ensures var mine := s.n.disk.states[m.id];
            Merge(mine, m.state).None? <==> mine.OrSet? && m.state.OrSet? && |mine.dots.Keys + m.state.dots.Keys| > DOTS_MAX
  {
    hide Reachable, Merge, Valid, Known;
    ReachableIsSafe(s);
    assert MessageOk(m, s.p, s.n, s.ppast, s.past, s.logs);
    assert Sound(s.n, s.p, LogOf(s.logs, m.id), m.id, s.n.disk.states[m.id]);
    MergeExactly(s.n.disk.states[m.id], m.state, LogOf(s.logs, m.id));
  }

  /** Whether the owner, or the other side, takes in the other's changes under these rights. */
  predicate Takes(owned: bool, rights: nat) {
    if owned then Writes(rights) else Reads(rights)
  }

  /** A node serving an object under this grant. */
  ghost predicate Serves(n: Node, id: ObjectId, owned: bool, kind: nat, epoch: nat, rights: nat) {
    && !n.halted && MemoryOk(n) && FindScope(n.catalog, id).Some?
    && n.catalog[FindScope(n.catalog, id).value] == Scope(id, epoch, kind, rights, owned)
    && id in n.disk.states && Valid(n.disk.states[id]) && KindOf(n.disk.states[id]) == kind
  }

  /** One's own state with the other's taken in, where that is allowed and possible. */
  function Joining(takes: bool, mine: State, other: State): State {
    if takes && Merge(mine, other).Some? then Merge(mine, other).value else mine
  }

  /** One summary from `a`, the update it provokes, and its arrival. */
  function Exchange(a: Node, b: Node, id: ObjectId, kind: nat, epoch: nat): Node
    requires id in a.disk.states
  {
    var reply := Receive(b, Summary(id, kind, epoch, a.disk.states[id]), Committed).1;
    if reply.None? then a else Receive(a, reply.value, Committed).0
  }

  /** After one exchange a node that takes changes holds the merge of both, or what it had if they cannot be merged. */
  lemma ExchangeMerges(a: Node, b: Node, id: ObjectId, kind: nat, epoch: nat, rights: nat, owned: bool)
    requires Serves(a, id, owned, kind, epoch, rights) && Serves(b, id, !owned, kind, epoch, rights) && rights <= 3
    ensures var after := Exchange(a, b, id, kind, epoch);
            && Serves(after, id, owned, kind, epoch, rights) && after.catalog == a.catalog && after.cursor == a.cursor
            && after.disk.states[id] == Joining(Takes(owned, rights), a.disk.states[id], b.disk.states[id])
  {
    hide Merge, Valid, FindScope, FirstChange;
    var x, y := a.disk.states[id], b.disk.states[id];
    if x == y {
      MergeIsIdempotent(x);
    }
    if Merge(x, y).Some? {
      MergeIsValid(x, y);
    }
  }

  /** Taking in one way and then the other is the same merge. */
  lemma JoiningTwice(x: State, y: State, owned: bool, rights: nat)
    requires Valid(x) && Valid(y)
    ensures Joining(Takes(!owned, rights), y, Joining(Takes(owned, rights), x, y)) == Joining(Takes(!owned, rights), y, x)
    ensures Merge(x, y) == Merge(y, x)
    ensures Merge(x, y).None? ==> x != y
  {
    hide Merge, Valid;
    MergeCommutes(x, y);
    if Merge(x, y).Some? {
      MergeAbsorbs(x, y);
    } else if x == y {
      MergeIsIdempotent(x);
    }
  }

  /**
   * Without edits, one exchange each way gives either side the merge of both if its rights let
   * it take changes. With both rights granted they end equal exactly when the states can be
   * merged at all; otherwise neither changes.
   */
  lemma ExchangeConverges(a: Node, b: Node, id: ObjectId, kind: nat, epoch: nat, rights: nat, owned: bool)
    requires Serves(a, id, owned, kind, epoch, rights) && Serves(b, id, !owned, kind, epoch, rights) && rights <= 3
    ensures var x, y := a.disk.states[id], b.disk.states[id];
            var a' := Exchange(a, b, id, kind, epoch);
            var b' := Exchange(b, a', id, kind, epoch);
            && id in a'.disk.states && a'.disk.states[id] == Joining(Takes(owned, rights), x, y)
            && id in b'.disk.states && b'.disk.states[id] == Joining(Takes(!owned, rights), y, x)
            && (rights == 3 ==> (a'.disk.states[id] == b'.disk.states[id] <==> Merge(x, y).Some?))
  {
    hide Merge, Valid, FindScope, FirstChange, Exchange;
    var x, y := a.disk.states[id], b.disk.states[id];
    ExchangeMerges(a, b, id, kind, epoch, rights, owned);
    ExchangeMerges(b, Exchange(a, b, id, kind, epoch), id, kind, epoch, rights, !owned);
    JoiningTwice(x, y, owned, rights);
  }
}
