/** What the migration invariant means for owners, imports and letters, in every run. */
module MigrationTheorems {
  import opened ObjectIds
  import opened Migrations
  import opened MigrationSafety

  /** Everything below is about states some run reaches from two empty stores. */
  ghost predicate Reachable(s: System) {
    exists allow, peerAllow, moves :: s == Run(Fresh(allow, peerAllow), moves)
  }

  lemma ReachableIsSafe(s: System)
    requires Reachable(s)
    ensures Inv(s) && Inv(Swapped(s))
  {
    hide Inv, Run, Fresh;
    var allow, peerAllow, moves :| s == Run(Fresh(allow, peerAllow), moves);
    FreshIsSafe(allow, peerAllow);
    EveryRunIsSafe(Fresh(allow, peerAllow), moves);
    SwapKeeps(s);
  }

  lemma SwapKeeps(s: System)
    requires Inv(s)
    ensures Inv(Swapped(s))
  {
    hide StoresOk, MemoryOk;
  }

  // ---- Ownership ------------------------------------------------------------------------------

  /**
   * Single owner: once the peer holds an import and its receipt, this node holds the fence,
   * has dropped the component from its registry and can never run it.
   */
  lemma NoDualOwner(s: System, i: nat)
    requires Reachable(s) && i < |s.p.store.receipts|
    ensures var source := s.p.store.receipts[i].source;
            source in s.n.store.fences && source !in s.n.store.registry && !Runnable(s.n, source)
  {
    hide Reachable;
    ReachableIsSafe(s);
    OwnedOnce(s, i);
  }

  lemma OwnedOnce(s: System, i: nat)
    requires Inv(s) && i < |s.p.store.receipts|
    ensures var source := s.p.store.receipts[i].source;
            source in s.n.store.fences && source !in s.n.store.registry && !Runnable(s.n, source)
  {
    ReceiptMeansGone(s.n.store, s.p.store, s.posted, s.parrived, i);
  }

  /** A component at a node, and the import it became at the other one. */
  datatype Place = Place(here: bool, root: nat)

  ghost predicate BecameOf(s: System, from: Place, to: Place) {
    from.here != to.here && Came((if to.here then s.n else s.p).store, from.root, to.root)
  }

  predicate RunsAt(s: System, at: Place) {
    Runnable(if at.here then s.n else s.p, at.root)
  }

  /** A journey: each place is the import of the one before. */
  ghost predicate Journey(s: System, path: seq<Place>) {
    forall k :: 0 <= k < |path| - 1 ==> BecameOf(s, path[k], path[k + 1])
  }

  lemma OnlyLastRuns(s: System, from: Place, to: Place)
    requires Reachable(s) && BecameOf(s, from, to)
    ensures !RunsAt(s, from)
  {
    var node := if to.here then s.n else s.p;
    var i :| 0 <= i < |node.store.receipts| && node.store.receipts[i].source == from.root
             && node.store.receipts[i].target == to.root;
    ReachableIsSafe(s);
    hide Reachable;
    if to.here {
      ReceiptMeansGone(s.p.store, s.n.store, s.pposted, s.arrived, i);
    } else {
      ReceiptMeansGone(s.n.store, s.p.store, s.posted, s.parrived, i);
    }
  }

  /** However often a component moved back and forth, at most one of its places can run it. */
  lemma OneOwnerPerJourney(s: System, path: seq<Place>, i: nat, j: nat)
    requires Reachable(s) && Journey(s, path) && i < j < |path|
    ensures !(RunsAt(s, path[i]) && RunsAt(s, path[j]))
  {
    hide Reachable, BecameOf, RunsAt;
    OnlyLastRuns(s, path[i], path[i + 1]);
  }

  /** Departures do not fork: a component has at most one import. */
  lemma ImportedAtMostOnce(s: System, i: nat, j: nat)
    requires Reachable(s) && i < j < |s.p.store.receipts|
    ensures s.p.store.receipts[i].source != s.p.store.receipts[j].source
    ensures s.p.store.receipts[i].target != s.p.store.receipts[j].target
  {
    ReachableIsSafe(s);
    hide Reachable;
  }

  // ---- Fidelity -------------------------------------------------------------------------------

  /** While a transfer is under way, what was received is a prefix of the component fenced here. */
  lemma ReceivedPrefix(s: System)
    requires Reachable(s) && !s.p.recovery && !s.p.m.source && s.p.m.bundle.Some?
    ensures var root := s.p.m.record.root;
            && Gone(s.n.store, root) && root in s.n.store.components
            && s.p.m.bundle.value <= Encode(BundleFor(s.n.id, s.n.store, root, s.p.m.record.generation))
  {
    ReachableIsSafe(s);
    hide Reachable, Encode, SelfOnly;
    assert FenceOk(s.n.id, s.n.store, s.p.m.record.root);
  }

  /**
   * An import appears with its receipt, for a component the peer fenced and has not seen
   * imported, with exactly the fenced code, mailbox and memory, and with its capabilities, which
   * were on itself alone, now on its new root.
   */
  lemma ImportIsFaithful(s: System, w: Wire, fate: Fate)
    requires Reachable(s) && w in s.pout
    requires |Step(s, Hears(w, fate)).n.store.receipts| != |s.n.store.receipts|
    ensures var after := Step(s, Hears(w, fate)).n.store;
            && |after.receipts| == |s.n.store.receipts| + 1
            && var receipt := after.receipts[|s.n.store.receipts|];
               && Gone(s.p.store, receipt.source) && receipt.source in s.p.store.components
               && receipt.target in after.registry && receipt.target !in s.n.store.components
               && receipt.target in after.components
               && (forall i :: 0 <= i < |s.n.store.receipts| ==> s.n.store.receipts[i].source != receipt.source)
               && var c, original := after.components[receipt.target], s.p.store.components[receipt.source];
                  && Reborn(c, original, receipt.target) && SelfOnly(c.caps, receipt.target)
                  && forall i :: 0 <= i < |original.caps| && original.caps[i].Cap? ==>
                       original.caps[i].subject == receipt.source && original.caps[i].rights in {1, 4, 5}
  {
    hide Reachable, Inv, Step, Receive, Reborn, SelfOnly, Rerooted, ImportedStore;
    ReachableIsSafe(s);
    HearsOnly(s, w, fate);
    ImportsOnly(s.n, w, fate);
    ImportSource(s, w);
    ImportedParts(s.n, w.head);
    ImportReborn(s.p.store.components[w.head.root], w.head.root, s.n.store.next + 3);
  }

  lemma HearsOnly(s: System, w: Wire, fate: Fate)
    requires w in s.pout
    ensures Step(s, Hears(w, fate)).n == Receive(s.n, w, fate).0
  {
    hide Receive;
  }

  /** A bundle that can be imported is the one its source fenced, and was not imported before. */
  lemma ImportSource(s: System, w: Wire)
    requires Inv(s) && w in s.pout && w.Ends? && MayImport(s.n, w.head) && FindReceipt(s.n.store.receipts, w.head).None?
    ensures Gone(s.p.store, w.head.root) && w.head.root in s.p.store.components && w.head.digest != []
    ensures w.head.digest[0].bundle.body == s.p.store.components[w.head.root]
    ensures SelfOnly(s.p.store.components[w.head.root].caps, w.head.root)
    ensures forall i :: 0 <= i < |s.n.store.receipts| ==> s.n.store.receipts[i].source != w.head.root
  {
    hide StoreOk, MemoryOk, DeparturesOk, Encode, SelfOnly, FindReceipt;
    HeardHead(s, w);
    NotImported(s.n.store, s.p.store, s.pposted, s.arrived, w.head);
    assert FenceOk(s.p.id, s.p.store, w.head.root);
    EncodeFirst(BundleFor(s.p.id, s.p.store, w.head.root, w.head.generation));
  }

  lemma ImportedParts(n: Node, head: Head)
    requires MayImport(n, head)
    ensures head.digest != []
    ensures var after, root := ImportedStore(n, head), n.store.next + 3;
            && |after.receipts| == |n.store.receipts| + 1
            && after.receipts[|n.store.receipts|].source == head.root && after.receipts[|n.store.receipts|].target == root
            && root in after.registry && root !in n.store.components && root in after.components
            && after.components[root] == head.digest[0].bundle.body.(caps := Rerooted(head.digest[0].bundle.body.caps, root))
  {
    hide Encode, SelfOnly, Rerooted;
  }

  lemma ImportReborn(c: Component, root: nat, target: nat)
    requires SelfOnly(c.caps, root)
    ensures Reborn(c.(caps := Rerooted(c.caps, target)), c, target) && SelfOnly(Rerooted(c.caps, target), target)
    ensures forall i :: 0 <= i < |c.caps| && c.caps[i].Cap? ==> c.caps[i].subject == root && c.caps[i].rights in {1, 4, 5}
  {
  }

  lemma EncodeFirst(b: Bundle)
    ensures Encode(b) != [] && Encode(b)[0].bundle == b
  {
  }

  /** Only the end of a transfer adds a receipt. */
  lemma ImportsOnly(n: Node, w: Wire, fate: Fate)
    requires |Receive(n, w, fate).0.store.receipts| != |n.store.receipts|
    ensures !Halted(n) && w.Ends? && !n.m.source && n.m.allow && FindReceipt(n.store.receipts, w.head).None?
    ensures MayImport(n, w.head) && Durably(fate) && Receive(n, w, fate).0.store == ImportedStore(n, w.head)
  {
    hide Encode, SelfOnly;
  }

  // ---- Letters ----------------------------------------------------------------------------------

  /**
   * Exactly once, in order: what was delivered to an import is what was posted behind its
   * fence, in the same order and each once, except possibly the last letter still waiting;
   * with an empty outbox nothing is missing.
   */
  lemma LettersArriveInOrder(s: System, i: nat)
    requires Reachable(s) && i < |s.p.store.receipts|
    ensures var receipt := s.p.store.receipts[i];
            && Gone(s.n.store, receipt.source)
            && var fence := s.n.store.fences[receipt.source];
            && (receipt.forward == fence.forward || receipt.forward + 1 == fence.forward)
            && |LettersOf(s.posted, receipt.source)| == fence.forward
            && LettersOf(s.parrived, receipt.target) == LettersOf(s.posted, receipt.source)[..receipt.forward]
            && (receipt.source !in s.n.store.outboxes ==>
                  LettersOf(s.parrived, receipt.target) == LettersOf(s.posted, receipt.source))
  {
    ReachableIsSafe(s);
    hide Reachable;
    ReceiptMeansGone(s.n.store, s.p.store, s.posted, s.parrived, i);
  }

  /** The log of deliveries is honest: it grows exactly when the durable mailbox does, by the same letter. */
  lemma DeliveryIsOneAppend(s: System, w: Wire, fate: Fate)
    requires Reachable(s) && w in s.pout
    ensures var after := Step(s, Hears(w, fate));
            if Delivers(s.n, w) && Durably(fate) then
              && w.target in s.n.store.components && w.target in after.n.store.components
              && after.n.store.components[w.target].mailbox == s.n.store.components[w.target].mailbox + [w.payload]
              && LettersOf(after.arrived, w.target) == LettersOf(s.arrived, w.target) + [w.payload]
              && forall t :: t in s.n.store.components && t != w.target ==>
                   t in after.n.store.components && after.n.store.components[t] == s.n.store.components[t]
            else
              && after.arrived == s.arrived
              && forall t :: t in s.n.store.components ==>
                   t in after.n.store.components && after.n.store.components[t] == s.n.store.components[t]
  {
    hide Reachable, HearAck, HearForwardAck;
    HearAckComponents(s.n, w, fate);
  }

  lemma HearAckComponents(n: Node, w: Wire, fate: Fate)
    ensures w.Ack? ==> HearAck(n, w.offset, w.target, fate).store.components == n.store.components
    ensures w.ForwardAck? ==> HearForwardAck(n, w.head, w.target, w.sequence, fate).store.components == n.store.components
  {
  }

  /** A post without a known target fills the outbox with a letter that has nowhere to go. */
  lemma StrayPostSticks(s: System, payload: Bytes, fate: Fate)
    requires Posts(s.n, payload) && Durably(fate) && s.n.m.record.target == NOBODY
    ensures Stuck(Step(s, Posting(payload, fate)).n.store, s.n.m.record.root)
    ensures Step(s, Posting(payload, fate)).n.store.outboxes[s.n.m.record.root].payload == payload
  {
  }

  lemma StuckStays(s: System, e: Event, r: nat)
    requires Stuck(s.n.store, r)
    ensures r in Step(s, e).n.store.outboxes && Step(s, e).n.store.outboxes[r] == s.n.store.outboxes[r]
  {
    hide SelfOnly, Encode;
    match e {
      case Hears(w, fate) => StuckHears(s.n, w, fate, r);
      case _ =>
    }
  }

  lemma StuckHears(n: Node, w: Wire, fate: Fate, r: nat)
    requires Stuck(n.store, r)
    ensures r in Receive(n, w, fate).0.store.outboxes && Receive(n, w, fate).0.store.outboxes[r] == n.store.outboxes[r]
  {
    hide IsBundle, MayDeliver;
  }

  lemma {:induction false} StuckForever(s: System, moves: seq<Move>, r: nat)
    requires Stuck(s.n.store, r)
    ensures Stuck(Run(s, moves).n.store, r) && Run(s, moves).n.store.outboxes[r] == s.n.store.outboxes[r]
    decreases |moves|
  {
    hide Step;
    if moves != [] {
      var before, move := Run(s, moves[..|moves| - 1]), moves[|moves| - 1];
      StuckForever(s, moves[..|moves| - 1], r);
      if move.here {
        StuckStays(before, move.event, r);
      } else {
        OtherStays(before, move.event);
      }
    }
  }

  lemma OtherStays(s: System, e: Event)
    ensures Swapped(Step(Swapped(s), e)).n == s.n
  {
    hide Leave, Resume, NextPacket, Receive, Post, Attach, Restart, Spawn, RunOn;
  }

  lemma {:induction false} RunAppends(s: System, first: seq<Move>, second: seq<Move>)
    ensures Run(s, first + second) == Run(Run(s, first), second)
    decreases |second|
  {
    hide Moved;
    if second == [] {
      assert first + second == first;
    } else {
      var n := |second| - 1;
      assert (first + second)[..|first| + n] == first + second[..n];
      RunAppends(s, first, second[..n]);
    }
  }

  lemma ReachableGoesOn(s: System, moves: seq<Move>)
    requires Reachable(s)
    ensures Reachable(Run(s, moves))
  {
    hide Run, Fresh;
    var allow, peerAllow, first :| s == Run(Fresh(allow, peerAllow), first);
    RunAppends(Fresh(allow, peerAllow), first, moves);
  }

  /**
   * A letter accepted while the endpoint holds no target is lost: it never reaches any
   * import, whatever happens afterwards.
   */
  lemma StrayPostIsLost(s: System, payload: Bytes, fate: Fate, moves: seq<Move>, i: nat)
    requires Reachable(s) && Posts(s.n, payload) && Durably(fate) && s.n.m.record.target == NOBODY
    requires var after := Run(s, [Move(true, Posting(payload, fate))] + moves);
             i < |after.p.store.receipts| && after.p.store.receipts[i].source == s.n.m.record.root
    ensures var after := Run(s, [Move(true, Posting(payload, fate))] + moves);
            var receipt := after.p.store.receipts[i];
            && LettersOf(after.posted, receipt.source) != []
            && LettersOf(after.posted, receipt.source)[|LettersOf(after.posted, receipt.source)| - 1] == payload
            && LettersOf(after.parrived, receipt.target)
               == LettersOf(after.posted, receipt.source)[..|LettersOf(after.posted, receipt.source)| - 1]
  {
    var r, post := s.n.m.record.root, [Move(true, Posting(payload, fate))];
    var after := Run(s, post + moves);
    RunAppends(s, post, moves);
    RunOne(s, post[0]);
    StrayPostSticks(s, payload, fate);
    StuckForever(Run(s, post), moves, r);
    ReachableGoesOn(s, post + moves);
    ReachableIsSafe(after);
    hide Reachable, Run, MemoryOk, FencesOk, StoreOk, MessagesOk, Inv;
    StuckIsMissing(after, i, r);
  }

  lemma RunOne(s: System, move: Move)
    ensures Run(s, [move]) == Moved(s, move)
  {
    assert [move][..0] == [];
    assert Run(s, []) == s;
  }

  lemma StuckIsMissing(s: System, i: nat, r: nat)
    requires Inv(s) && Stuck(s.n.store, r) && i < |s.p.store.receipts| && s.p.store.receipts[i].source == r
    ensures LettersOf(s.posted, r) != []
    ensures LettersOf(s.posted, r)[|LettersOf(s.posted, r)| - 1] == s.n.store.outboxes[r].payload
    ensures LettersOf(s.parrived, s.p.store.receipts[i].target) == LettersOf(s.posted, r)[..|LettersOf(s.posted, r)| - 1]
  {
    hide MemoryOk, FencesOk, MessagesOk;
    ReceiptMeansGone(s.n.store, s.p.store, s.posted, s.parrived, i);
    assert DepartureOk(s.n.store, s.p.store, r, s.posted);
  }

  // ---- ... and with a target it can always still arrive -------------------------------------------

  /** The peer comes up afresh, drains the import's mailbox and attaches it. */
  lemma PeerGetsReady(s: System, t: nat)
    requires t in s.p.store.registry && t in s.p.store.components && t !in s.p.store.fences
    requires exists i :: 0 <= i < |s.p.store.receipts| && s.p.store.receipts[i].target == t
    ensures var empty := s.p.store.components[t].(mailbox := []);
            var ready := Moved(Moved(Moved(s, Move(false, Restarts(true))), Move(false, Runs(t, empty, Commits))),
                               Move(false, Attaches(t)));
            ready == s.(p := s.p.(recovery := false, store := s.p.store.(components := s.p.store.components[t := empty]),
                                  m := Opened(true).(imported := t, attached := t)))
  {
    var empty := s.p.store.components[t].(mailbox := []);
    var up := Moved(s, Move(false, Restarts(true)));
    assert up == s.(p := Restart(s.p, true));
    var drained := Moved(up, Move(false, Runs(t, empty, Commits)));
    assert drained == up.(p := up.p.(store := up.p.store.(components := up.p.store.components[t := empty])));
  }

  /** A posted letter is what the endpoint sends next. */
  lemma PostedIsSent(s: System, payload: Bytes)
    requires Posts(s.n, payload) && s.n.m.record.target != NOBODY
    ensures var posted := Step(s, Posting(payload, Commits));
            NextPacket(posted.n) == Some(Forward(HeadOf(s.n.m), s.n.m.record.target, s.n.m.record.forward + 1, payload))
  {
  }

  /** The receipt of a named target is the one its letters find. */
  lemma LettersFindReceipt(s: System)
    requires Inv(s) && !s.n.recovery && s.n.m.source && s.n.m.phase == 3 && s.n.m.record.target != NOBODY
    ensures var found := FindReceipt(s.p.store.receipts, HeadOf(s.n.m));
            && found.Some? && s.p.store.receipts[found.value].target == s.n.m.record.target
            && (OutboxEmpty(s.n) ==>
                  && s.p.store.receipts[found.value].forward == s.n.m.record.forward
                  && LettersOf(s.parrived, s.n.m.record.target) == LettersOf(s.posted, s.n.m.record.root))
  {
    hide MessagesOk, SelfOnly, Encode;
    var r, t := s.n.m.record.root, s.n.m.record.target;
    PostedRecord(s.n, s.p.store);
    assert FenceOk(s.n.id, s.n.store, r) && DepartureOk(s.n.store, s.p.store, r, s.posted);
    var i :| 0 <= i < |s.p.store.receipts| && s.p.store.receipts[i].source == r && s.p.store.receipts[i].target == t;
    ReceiptMeansGone(s.n.store, s.p.store, s.posted, s.parrived, i);
    OneReceipt(s.p.store, i);
  }

  lemma PeerDelivers(s: System, w: Wire, index: nat)
    requires w in s.out && w.Forward? && !Halted(s.p) && !s.p.m.source && s.p.m.allow
    requires FindReceipt(s.p.store.receipts, w.head) == Some(index) && s.p.store.receipts[index].target == w.target
    requires w.sequence == s.p.store.receipts[index].forward + 1 <= UINT64_MAX
    requires s.p.m.attached == w.target && w.target in s.p.store.components && |w.payload| <= FORWARD_MAX
    requires s.p.store.components[w.target].mailbox == []
    ensures var after := Moved(s, Move(false, Hears(w, Commits)));
            && LettersOf(after.parrived, w.target) == LettersOf(s.parrived, w.target) + [w.payload]
            && after.posted == s.posted
  {
  }

  /** A letter accepted for a known target can arrive as long as the import is still there to run. */
  lemma PostCanArrive(s: System, payload: Bytes) returns (moves: seq<Move>)
    requires Reachable(s) && Posts(s.n, payload) && s.n.m.record.target != NOBODY
    requires s.n.m.record.target in s.p.store.registry && s.n.m.record.target !in s.p.store.fences
    ensures var after := Run(s, [Move(true, Posting(payload, Commits))] + moves);
            && LettersOf(after.posted, s.n.m.record.root) == LettersOf(s.posted, s.n.m.record.root) + [payload]
            && LettersOf(after.parrived, s.n.m.record.target) == LettersOf(after.posted, s.n.m.record.root)
  {
    hide Reachable, FencesOk, DeparturesOk, ReceiptsOk, MessagesOk, MemoryOk, Leave, Resume, Spawn;
    ReachableIsSafe(s);
    LettersFindReceipt(s);
    var r, t := s.n.m.record.root, s.n.m.record.target;
    var index := FindReceipt(s.p.store.receipts, HeadOf(s.n.m)).value;
    var posted := Step(s, Posting(payload, Commits));
    PostedIsSent(s, payload);
    var w := NextPacket(posted.n).value;
    var empty := posted.p.store.components[t].(mailbox := []);
    PeerGetsReady(posted, t);
    var up := Moved(posted, Move(false, Restarts(true)));
    var drained := Moved(up, Move(false, Runs(t, empty, Commits)));
    var ready := Moved(drained, Move(false, Attaches(t)));
    var sent := Moved(ready, Move(true, Sends));
    assert sent == ready.(out := ready.out + {w});
    PeerDelivers(sent, w, index);
    moves := [Move(false, Restarts(true)), Move(false, Runs(t, empty, Commits)), Move(false, Attaches(t)),
              Move(true, Sends), Move(false, Hears(w, Commits))];
    PostLetters(s.posted, r, payload);
    SixMoves(s, Move(true, Posting(payload, Commits)), moves);
  }

  lemma SixMoves(s: System, first: Move, moves: seq<Move>)
    requires |moves| == 5
    ensures Run(s, [first] + moves)
            == Moved(Moved(Moved(Moved(Moved(Moved(s, first), moves[0]), moves[1]), moves[2]), moves[3]), moves[4])
  {
    hide Moved;
    var all := [first] + moves;
    RunNext(s, all, 5);
    RunNext(s, all, 4);
    RunNext(s, all, 3);
    RunNext(s, all, 2);
    RunNext(s, all, 1);
    RunNext(s, all, 0);
    assert all[..6] == all && all[..0] == [];
  }

  // ---- ... unless its import has moved on ---------------------------------------------------------

  /** A component that has left, or is fenced, and whose root is not up to be handed out. */
  predicate MovedOn(s: Store, t: nat) {
    t < s.next && (t !in s.registry || t in s.fences)
  }

  /** What no step takes back: ids are not handed out again, fences and receipts stay. */
  ghost predicate Later(s: Store, after: Store) {
    && s.next <= after.next && s.fences.Keys <= after.fences.Keys
    && (forall r :: r in after.registry ==> r in s.registry || s.next <= r)
    && |s.receipts| <= |after.receipts|
    && (forall i :: 0 <= i < |s.receipts| ==>
          s.receipts[i].source == after.receipts[i].source && s.receipts[i].target == after.receipts[i].target)
  }

  lemma {:induction false} WithoutKeeps(registry: seq<nat>, root: nat, r: nat)
    requires r in Without(registry, root)
    ensures r in registry
  {
    if registry[0] != root && r != registry[0] {
      WithoutKeeps(registry[1..], root, r);
    }
  }

  lemma LeaveLater(n: Node, root: nat, isolated: bool, memory: bool, fate: Fate)
    ensures Later(n.store, Leave(n, root, isolated, memory, fate).store)
  {
    hide Encode, Size, SelfOnly, PriorGeneration, Without;
    forall r | r in Without(n.store.registry, root)
      ensures r in n.store.registry
    {
      WithoutKeeps(n.store.registry, root, r);
    }
  }

  lemma ReceiveLater(n: Node, w: Wire, fate: Fate)
    ensures Later(n.store, Receive(n, w, fate).0.store)
  {
    hide MayImport, MayDeliver, Encode;
  }

  lemma StepLater(s: System, e: Event)
    ensures Later(s.n.store, Step(s, e).n.store)
  {
    hide Encode, Size, SelfOnly, Receive, Leave;
    match e
    case Leaves(root, isolated, memory, fate) => LeaveLater(s.n, root, isolated, memory, fate);
    case Hears(w, fate) => ReceiveLater(s.n, w, fate);
    case _ =>
  }

  /** Whatever happens at a node, a component that moved on gets no more letters there. */
  lemma StepDeliversElsewhere(s: System, e: Event, t: nat)
    requires Inv(s) && MovedOn(s.n.store, t) && t != NOBODY
    ensures LettersOf(Step(s, e).arrived, t) == LettersOf(s.arrived, t)
  {
    hide StoresOk, SelfOnly, Receive, FindReceipt, Leave, Post, Resume;
    if e.Hears? && Delivers(s.n, e.w) {
      assert e.w.target != t by {
        DeliveredIsHere(s.n, s.p.store, e.w);
      }
    }
  }

  lemma DeliveredIsHere(n: Node, peer: Store, w: Wire)
    requires MemoryOk(n, peer) && Delivers(n, w)
    ensures n.m.attached == w.target && (w.target != NOBODY ==> w.target in n.store.registry && w.target !in n.store.fences)
  {
    hide SourceOk, TargetOk;
  }

  /** The import of `r` is known to have been `t`, and `t` has moved on. */
  ghost predicate CameAndWent(s: Store, r: nat, t: nat) {
    Came(s, r, t) && MovedOn(s, t) && t != NOBODY
  }

  lemma LaterCame(s: Store, after: Store, r: nat, t: nat)
    requires CameAndWent(s, r, t) && Later(s, after)
    ensures CameAndWent(after, r, t)
  {
    hide Came;
    StillCame(s, after, r, t);
  }

  lemma {:induction false} NoMoreLetters(s: System, moves: seq<Move>, r: nat, t: nat)
    requires Inv(s) && CameAndWent(s.p.store, r, t)
    ensures CameAndWent(Run(s, moves).p.store, r, t) && Inv(Run(s, moves))
    ensures LettersOf(Run(s, moves).parrived, t) == LettersOf(s.parrived, t)
    decreases |moves|
  {
    hide Step, Inv, Later, Came;
    if moves != [] {
      var before, move := Run(s, moves[..|moves| - 1]), moves[|moves| - 1];
      NoMoreLetters(s, moves[..|moves| - 1], r, t);
      MoveKeeps(before, move);
      if move.here {
        HereOnly(before, move.event);
      } else {
        SwappedIsSafe(before);
        StepLater(Swapped(before), move.event);
        LaterCame(before.p.store, Step(Swapped(before), move.event).n.store, r, t);
        StepDeliversElsewhere(Swapped(before), move.event, t);
      }
    }
  }

  lemma SwappedIsSafe(s: System)
    requires Inv(s)
    ensures Inv(Swapped(s))
  {
    hide StoresOk, MemoryOk;
  }

  lemma HereOnly(s: System, e: Event)
    ensures Step(s, e).p == s.p && Step(s, e).parrived == s.parrived && Step(s, e).pposted == s.pposted
  {
    hide Leave, Resume, NextPacket, Receive, Post, Attach, Restart, Spawn, RunOn;
  }

  /** That many of the letters posted for `r` have arrived at its import. */
  ghost predicate Arrives(s: System, r: nat, count: nat) {
    exists i :: 0 <= i < |s.p.store.receipts| && s.p.store.receipts[i].source == r
                && count <= |LettersOf(s.parrived, s.p.store.receipts[i].target)|
  }

  /** The number of the letter being posted. */
  function Posted(s: System): nat {
    |LettersOf(s.posted, s.n.m.record.root)| + 1
  }

  /** No more than was posted before arrives if the import has moved on. */
  lemma MovedOnIsLost(s: System, payload: Bytes, moves: seq<Move>)
    requires Reachable(s) && Posts(s.n, payload) && s.n.m.record.target != NOBODY
    requires MovedOn(s.p.store, s.n.m.record.target)
    ensures !Arrives(Run(s, [Move(true, Posting(payload, Commits))] + moves), s.n.m.record.root, Posted(s))
  {
    hide Reachable, Inv, Run, MovedOn, Came;
    ReachableIsSafe(s);
    var r, t, all := s.n.m.record.root, s.n.m.record.target, [Move(true, Posting(payload, Commits))] + moves;
    TargetCame(s);
    NoMoreLetters(s, all, r, t);
    var after := Run(s, all);
    forall i | 0 <= i < |after.p.store.receipts| && after.p.store.receipts[i].source == r
      ensures after.p.store.receipts[i].target == t
    {
      OnlyImport(after, i, r, t);
    }
  }

  lemma TargetCame(s: System)
    requires Inv(s) && !s.n.recovery && s.n.m.source && s.n.m.phase == 3 && s.n.m.record.target != NOBODY && OutboxEmpty(s.n)
    ensures Came(s.p.store, s.n.m.record.root, s.n.m.record.target) && s.n.m.record.target < s.p.store.next
    ensures LettersOf(s.parrived, s.n.m.record.target) == LettersOf(s.posted, s.n.m.record.root)
  {
    hide Inv, FindReceipt, MemoryOk, MessagesOk, FencesOk, DeparturesOk;
    LettersFindReceipt(s);
    var i := FindReceipt(s.p.store.receipts, HeadOf(s.n.m)).value;
    assert s.p.store.receipts[i].source == s.n.m.record.root && s.p.store.receipts[i].target == s.n.m.record.target;
    TargetIsOld(s, i);
  }

  lemma TargetIsOld(s: System, i: nat)
    requires Inv(s) && i < |s.p.store.receipts|
    ensures NOBODY < s.p.store.receipts[i].target < s.p.store.next
  {
    hide MemoryOk, FencesOk, ReceiptsOk, DeparturesOk, MessagesOk;
  }

  lemma OnlyImport(s: System, i: nat, r: nat, t: nat)
    requires Inv(s) && Came(s.p.store, r, t) && i < |s.p.store.receipts| && s.p.store.receipts[i].source == r
    ensures s.p.store.receipts[i].target == t
  {
    hide MemoryOk, FencesOk, ReceiptsOk, DeparturesOk, MessagesOk;
    OneReceipt(s.p.store, i);
  }

  lemma StrayNeverArrives(s: System, payload: Bytes, moves: seq<Move>)
    requires Reachable(s) && Posts(s.n, payload) && s.n.m.record.target == NOBODY
    ensures !Arrives(Run(s, [Move(true, Posting(payload, Commits))] + moves), s.n.m.record.root, Posted(s))
  {
    hide Reachable, Inv, Run;
    ReachableIsSafe(s);
    var r, post := s.n.m.record.root, [Move(true, Posting(payload, Commits))];
    var posted, after := Step(s, Posting(payload, Commits)), Run(s, post + moves);
    RunAppends(s, post, moves);
    RunOne(s, post[0]);
    StrayPostSticks(s, payload, Commits);
    StuckForever(posted, moves, r);
    StuckPosted(posted, moves, r);
    StepKeeps(s, Posting(payload, Commits));
    EveryRunIsSafe(posted, moves);
    forall i | 0 <= i < |after.p.store.receipts| && after.p.store.receipts[i].source == r
      ensures |LettersOf(after.parrived, after.p.store.receipts[i].target)| < Posted(s)
    {
      StuckIsMissing(after, i, r);
    }
  }

  lemma StuckStep(s: System, e: Event, r: nat)
    requires Stuck(s.n.store, r)
    ensures LettersOf(Step(s, e).posted, r) == LettersOf(s.posted, r)
  {
    hide Leave, Resume, NextPacket, Receive, Post, Attach, Restart, Spawn, RunOn;
  }

  /** While a letter is stuck no other is posted for its component. */
  lemma {:induction false} StuckPosted(s: System, moves: seq<Move>, r: nat)
    requires Stuck(s.n.store, r)
    ensures LettersOf(Run(s, moves).posted, r) == LettersOf(s.posted, r)
    decreases |moves|
  {
    hide Step, Stuck, LettersOf;
    if moves != [] {
      var before, move := Run(s, moves[..|moves| - 1]), moves[|moves| - 1];
      StuckPosted(s, moves[..|moves| - 1], r);
      StuckForever(s, moves[..|moves| - 1], r);
      if move.here {
        StuckStep(before, move.event, r);
      } else {
        HereOnly(Swapped(before), move.event);
      }
    }
  }

  /**
   * Exactly when an accepted letter can still arrive: its endpoint knows the target, and the
   * target is still at the peer. Otherwise it never does, whatever happens.
   */
  lemma PostArrivesExactly(s: System, payload: Bytes)
    requires Reachable(s) && Posts(s.n, payload)
    ensures var t := s.n.m.record.target;
            (exists moves :: Arrives(Run(s, [Move(true, Posting(payload, Commits))] + moves), s.n.m.record.root, Posted(s)))
            <==> t != NOBODY && t in s.p.store.registry && t !in s.p.store.fences
  {
    hide Reachable, Inv, Run, Arrives;
    ReachableIsSafe(s);
    var r, t := s.n.m.record.root, s.n.m.record.target;
    if t == NOBODY {
      forall moves
        ensures !Arrives(Run(s, [Move(true, Posting(payload, Commits))] + moves), r, Posted(s))
      {
        StrayNeverArrives(s, payload, moves);
      }
    } else {
      TargetCame(s);
      if MovedOn(s.p.store, t) {
        forall moves
          ensures !Arrives(Run(s, [Move(true, Posting(payload, Commits))] + moves), r, Posted(s))
        {
          MovedOnIsLost(s, payload, moves);
        }
      } else {
        var moves := PostCanArrive(s, payload);
        LettersCame(s, payload, moves);
      }
    }
  }

  lemma LettersCame(s: System, payload: Bytes, moves: seq<Move>)
    requires Reachable(s) && Posts(s.n, payload) && s.n.m.record.target != NOBODY
    requires var after := Run(s, [Move(true, Posting(payload, Commits))] + moves);
             && LettersOf(after.posted, s.n.m.record.root) == LettersOf(s.posted, s.n.m.record.root) + [payload]
             && LettersOf(after.parrived, s.n.m.record.target) == LettersOf(after.posted, s.n.m.record.root)
    ensures Arrives(Run(s, [Move(true, Posting(payload, Commits))] + moves), s.n.m.record.root, Posted(s))
  {
    hide Reachable, Inv, Run, Step, Came;
    ReachableIsSafe(s);
    TargetCame(s);
    RunCame(s, [Move(true, Posting(payload, Commits))] + moves, s.n.m.record.root, s.n.m.record.target);
    CameArrives(Run(s, [Move(true, Posting(payload, Commits))] + moves), s.n.m.record.root, s.n.m.record.target, Posted(s));
  }

  lemma CameArrives(s: System, r: nat, t: nat, count: nat)
    requires Came(s.p.store, r, t) && count <= |LettersOf(s.parrived, t)|
    ensures Arrives(s, r, count)
  {
    var i :| 0 <= i < |s.p.store.receipts| && s.p.store.receipts[i].source == r && s.p.store.receipts[i].target == t;
  }

  lemma {:induction false} RunCame(s: System, moves: seq<Move>, r: nat, t: nat)
    requires Came(s.p.store, r, t)
    ensures Came(Run(s, moves).p.store, r, t)
    decreases |moves|
  {
    hide Step, Came, Later;
    if moves != [] {
      var before, move := Run(s, moves[..|moves| - 1]), moves[|moves| - 1];
      RunCame(s, moves[..|moves| - 1], r, t);
      if move.here {
        HereOnly(before, move.event);
      } else {
        StepLater(Swapped(before), move.event);
        StillCame(before.p.store, Step(Swapped(before), move.event).n.store, r, t);
      }
    }
  }

  lemma StillCame(s: Store, after: Store, r: nat, t: nat)
    requires Came(s, r, t) && Later(s, after)
    ensures Came(after, r, t)
  {
    var i :| 0 <= i < |s.receipts| && s.receipts[i].source == r && s.receipts[i].target == t;
    assert after.receipts[i].source == r && after.receipts[i].target == t;
  }

  lemma RunNext(s: System, moves: seq<Move>, k: nat)
    requires k < |moves|
    ensures Run(s, moves[..k + 1]) == Moved(Run(s, moves[..k]), moves[k])
  {
    hide Moved;
    assert moves[..k + 1][..k] == moves[..k];
  }

  // ---- Where it fails -------------------------------------------------------------------------------

  /**
   * After a migration is complete, a refused departure of a second component followed by a
   * post for the first fences the second one for good: it is still registered, nothing of it
   * has left, and no run ever makes it runnable again.
   */
  lemma RefusedDepartureThenPost(s: System, y: nat, payload: Bytes, moves: seq<Move>)
    requires Reachable(s) && !Halted(s.n) && s.n.m.source && s.n.m.phase == 3 && Runnable(s.n, y) && MayLeave(s.n, y)
    requires |payload| <= FORWARD_MAX
    ensures var refused := Step(s, Leaves(y, true, true, Refused));
            && Posts(refused.n, payload) && refused.n.m.record.target == NOBODY && Runnable(refused.n, y)
            && var posted := Step(refused, Posting(payload, Commits));
               y in posted.n.store.registry && !Runnable(Run(posted, moves).n, y)
  {
    hide Reachable, Inv, Leave, Run;
    ReachableIsSafe(s);
    var refused := Step(s, Leaves(y, true, true, Refused));
    StepKeeps(s, Leaves(y, true, true, Refused));
    NoOutbox(s, y);
    RefusedLeave(s.n, y, payload);
    var posted := Step(refused, Posting(payload, Commits));
    StepKeeps(refused, Posting(payload, Commits));
    StrayPostSticks(refused, payload, Commits);
    StuckForever(posted, moves, y);
    EveryRunIsSafe(posted, moves);
    StuckIsFenced(Run(posted, moves), y);
  }

  lemma NoOutbox(s: System, y: nat)
    requires Inv(s) && y !in s.n.store.fences
    ensures y !in s.n.store.outboxes
  {
  }

  /** A refused departure leaves the disk alone and the wrong record in memory. */
  lemma RefusedLeave(n: Node, y: nat, payload: Bytes)
    requires !Halted(n) && n.m.source && n.m.phase == 3 && MayLeave(n, y) && y !in n.store.outboxes
    requires |payload| <= FORWARD_MAX
    ensures var refused := Leave(n, y, true, true, Refused);
            && refused.store == n.store && !refused.recovery && refused.m.record.root == y
            && refused.m.record.target == NOBODY && Posts(refused, payload)
  {
    hide SelfOnly, Encode, Size, PriorGeneration, Without;
  }

  lemma StuckIsFenced(s: System, r: nat)
    requires Inv(s) && Stuck(s.n.store, r)
    ensures !Runnable(s.n, r)
  {
  }
}
