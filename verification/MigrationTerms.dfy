/** The terms of each migration step, written out: exactly when it happens and exactly what it changes. */
module MigrationTerms {
  import opened ObjectIds
  import opened Migrations
  import opened MigrationSafety
  import opened MigrationTheorems

  /** Every capability is READ, SEND or both on the component itself. */
  ghost predicate Selfish(c: Component, root: nat) {
    forall i :: 0 <= i < |c.caps| ==> c.caps[i].Cap? ==> c.caps[i].subject == root && c.caps[i].rights in {1, 4, 5}
  }

  /** How often a component has moved before: its receipt says. */
  lemma {:induction false} PriorMeans(receipts: seq<Receipt>, root: nat, i: nat)
    ensures (forall k :: 0 <= k < |receipts| ==> receipts[k].target != root) ==> PriorGeneration(receipts, root) == 0
    ensures i < |receipts| && receipts[i].target == root && (forall k :: 0 <= k < i ==> receipts[k].target != root) ==>
              PriorGeneration(receipts, root) == receipts[i].generation
    decreases |receipts|
  {
    if receipts != [] && receipts[0].target != root {
      PriorMeans(receipts[1..], root, if i > 0 then i - 1 else 0);
    }
  }

  // ---- Leaving --------------------------------------------------------------------------------------

  ghost predicate CanLeave(n: Node, root: nat, isolated: bool, memory: bool) {
    && !n.m.halted && !n.recovery && isolated && memory && n.m.bundle == None && root != 0
    && root in n.store.registry && root in n.store.components && root !in n.store.fences
    && Selfish(n.store.components[root], root)
    && PriorGeneration(n.store.receipts, root) < 0xFFFF_FFFF_FFFF_FFFF
    && var c := n.store.components[root];
       128 + |c.code| + 544 + 64 + MailboxUsed(c.mailbox) + |c.memory| <= 1048576
  }

  /**
   * A component leaves exactly if the node is healthy and idle, nothing else refers to it, and its
   * bundle is not too large. Then it is fenced, out of the registry, and nothing else changed.
   */
  lemma LeavesExactly(n: Node, root: nat, isolated: bool, memory: bool)
    ensures var after := Leave(n, root, isolated, memory, Commits);
            if CanLeave(n, root, isolated, memory) then
              && root in after.store.fences
              && var fence := after.store.fences[root];
                 && fence.root == root && fence.generation == PriorGeneration(n.store.receipts, root) + 1
                 && fence.target == 0 && fence.forward == 0
                 && fence.digest == Encode(Bundle(n.id, if n.id == 0 then 1 else 0, root, fence.generation, n.store.components[root]))
                 && after.store == n.store.(registry := Without(n.store.registry, root), fences := n.store.fences[root := fence])
                 && after.m.source && after.m.phase == 0 && after.m.record == fence && after.m.received == 0
                 && after.m.bundle == Some(fence.digest) && after.m.total == |fence.digest| && !after.recovery
            else after.store == n.store && after.m.source == n.m.source && after.m.phase == n.m.phase && after.m.bundle == n.m.bundle
  {
    hide Encode, PriorGeneration, Without, MailboxUsed;
    if root in n.store.components {
      SelfishIs(n.store.components[root], root);
      EncodedSize(BundleFor(n.id, n.store, root, PriorGeneration(n.store.receipts, root) + 1));
    }
  }

  lemma SelfishIs(c: Component, root: nat)
    ensures SelfOnly(c.caps, root) <==> Selfish(c, root)
  {
  }

  lemma EncodedSize(b: Bundle)
    ensures |Encode(b)| == Size(b)
  {
  }

  /** Leaving takes exactly one entry out of the registry and keeps the order of the others. */
  lemma {:induction false} WithoutMeans(registry: seq<nat>, root: nat)
    requires root in registry && forall i, j :: 0 <= i < j < |registry| ==> registry[i] != registry[j]
    ensures |Without(registry, root)| == |registry| - 1 && root !in Without(registry, root)
    ensures forall i, j :: 0 <= i < j < |Without(registry, root)| ==> Without(registry, root)[i] != Without(registry, root)[j]
    ensures forall r :: r != root ==> (r in Without(registry, root) <==> r in registry)
  {
    if registry[0] != root {
      WithoutMeans(registry[1..], root);
      assert forall r :: r in registry <==> r == registry[0] || r in registry[1..];
      assert registry[0] !in registry[1..];
      assert registry[0] !in Without(registry[1..], root);
    } else {
      assert forall r :: r in registry <==> r == registry[0] || r in registry[1..];
    }
  }

  // ---- Importing ------------------------------------------------------------------------------------

  ghost predicate CanImport(n: Node, w: Wire) {
    && w.Ends? && !n.m.halted && !n.recovery && !n.m.source && n.m.allow
    && (forall i :: 0 <= i < |n.store.receipts| ==>
          !(n.store.receipts[i].source == w.head.root && n.store.receipts[i].generation == w.head.generation
            && n.store.receipts[i].digest == w.head.digest))
    && n.m.record.root == w.head.root && n.m.record.generation == w.head.generation && n.m.record.digest == w.head.digest
    && n.m.total == w.head.total == n.m.received && n.m.bundle == Some(w.head.digest) && w.head.digest != []
    && var b := w.head.digest[0].bundle;
       && w.head.digest == Encode(b) && b.from == (if n.id == 0 then 1 else 0) && b.to == n.id
       && b.root == w.head.root && b.generation == w.head.generation && Selfish(b.body, b.root)
       && |n.store.registry| < 4 && n.store.next + 4 <= 0xFFFF_FFFF_FFFF_FFFF
       && n.store.next + 3 !in n.store.components && n.store.next + 3 !in n.store.fences
       && forall i :: 0 <= i < |n.store.receipts| ==> n.store.receipts[i].target != n.store.next + 3
  }

  /** A bundle is imported exactly if it is complete, addressed to this node, new, and there is room for it. */
  lemma ImportsExactly(n: Node, w: Wire)
    ensures |Receive(n, w, Commits).0.store.receipts| != |n.store.receipts| <==> CanImport(n, w)
  {
    hide Encode, SelfOnly, Selfish, HearAck, HearForwardAck, Deliver, Rerooted;
    AcksKeepReceipts(n, w, Commits);
    if w.Ends? && w.head.digest != [] {
      SelfishIs(w.head.digest[0].bundle.body, w.head.digest[0].bundle.root);
    }
    if w.Forward? && FindReceipt(n.store.receipts, w.head).Some? {
      DeliverKeepsCount(n, FindReceipt(n.store.receipts, w.head).value, w);
    }
  }

  lemma AcksKeepReceipts(n: Node, w: Wire, fate: Fate)
    ensures w.Ack? ==> HearAck(n, w.offset, w.target, fate).store.receipts == n.store.receipts
    ensures w.ForwardAck? ==> HearForwardAck(n, w.head, w.target, w.sequence, fate).store.receipts == n.store.receipts
  {
  }

  lemma DeliverKeepsCount(n: Node, index: nat, w: Wire)
    requires index < |n.store.receipts| && w.Forward?
    ensures |Deliver(n, index, w, Commits).0.store.receipts| == |n.store.receipts|
  {
  }

  // ---- Letters ---------------------------------------------------------------------------------------

  /** A letter is accepted for posting exactly if the migration is complete, the letter short, and no other waits. */
  lemma PostsExactly(n: Node, payload: Bytes)
    ensures Posts(n, payload) <==>
            && !n.m.halted && !n.recovery && n.m.source && n.m.phase == 3 && |payload| <= 256
            && n.m.record.forward < 0xFFFF_FFFF_FFFF_FFFF && n.m.record.root !in n.store.outboxes
    ensures var after := Post(n, payload, Commits);
            if Posts(n, payload) then
              && after.m.record == n.m.record.(forward := n.m.record.forward + 1)
              && after.store == n.store.(fences := n.store.fences[n.m.record.root := after.m.record],
                                         outboxes := n.store.outboxes[n.m.record.root := Letter(HeadOf(n.m), n.m.record.target,
                                                                                                n.m.record.forward + 1, payload)])
            else after == n
  {
  }

  /** A letter is delivered exactly if it is the next one, its component is attached, and the mailbox has room. */
  lemma DeliversExactly(n: Node, w: Wire)
    requires w.Forward?
    ensures Delivers(n, w) <==>
            && !n.m.halted && !n.recovery && !n.m.source && n.m.allow
            && var found := FindReceipt(n.store.receipts, w.head);
               && found.Some?
               && var r := n.store.receipts[found.value];
                  && w.target == r.target == n.m.attached && w.sequence == r.forward + 1 <= 0xFFFF_FFFF_FFFF_FFFF
                  && r.target in n.store.components
                  && MailboxUsed(n.store.components[r.target].mailbox) + 8 + |w.payload| <= 4096
  {
  }

  /** A mailbox takes eight bytes and the payload for every letter. */
  lemma {:induction false} MailboxMeans(mailbox: seq<Bytes>, letter: Bytes)
    ensures MailboxUsed([]) == 0 && MailboxUsed(mailbox + [letter]) == MailboxUsed(mailbox) + 8 + |letter|
  {
    assert (mailbox + [letter])[..|mailbox|] == mailbox;
  }

  // ---- Resuming and attaching ------------------------------------------------------------------------

  ghost predicate CanResume(n: Node, root: nat, memory: bool) {
    && !n.m.halted && !n.recovery && memory && n.m.bundle == None && root != 0 && root in n.store.fences && root in n.store.components
    && var fence, c := n.store.fences[root], n.store.components[root];
       && fence.root == root && !(fence.target == 0 && fence.forward != 0) && Selfish(c, root)
       && 128 + |c.code| + 544 + 64 + MailboxUsed(c.mailbox) + |c.memory| <= 1048576
       && fence.digest == Encode(Bundle(n.id, if n.id == 0 then 1 else 0, root, fence.generation, c))
  }

  /** A fenced migration is taken up again exactly if its component is as it was fenced, at the phase its fence says. */
  lemma ResumesExactly(n: Node, root: nat, memory: bool)
    ensures var after := Resume(n, root, memory);
            && after.store == n.store && after.recovery == n.recovery
            && if CanResume(n, root, memory) then
                 var fence := n.store.fences[root];
                 && after.m.source && after.m.record == fence && after.m.bundle == Some(fence.digest) && after.m.received == 0
                 && after.m.total == |fence.digest| && after.m.phase == (if fence.target == 0 then 0 else 3)
               else after.m.source == n.m.source && after.m.phase == n.m.phase && after.m.bundle == n.m.bundle
  {
    hide Encode, MailboxUsed;
    if root in n.store.components {
      SelfishIs(n.store.components[root], root);
    }
  }

  /** A component is attached exactly if it was imported here and can run. */
  lemma AttachesExactly(n: Node, root: nat)
    ensures var after := Attach(n, root);
            if !n.m.halted && !n.recovery && !n.m.source && root in n.store.registry && root in n.store.components
               && root !in n.store.fences && exists i :: 0 <= i < |n.store.receipts| && n.store.receipts[i].target == root
            then after == n.(m := n.m.(attached := root, imported := root))
            else after == n
  {
  }

  // ---- Registries ------------------------------------------------------------------------------------

  lemma {:induction false} WithoutShrinks(registry: seq<nat>, root: nat)
    ensures |Without(registry, root)| <= |registry|
  {
    if registry != [] && registry[0] != root {
      WithoutShrinks(registry[1..], root);
    }
  }

  lemma ReceiveFits(n: Node, w: Wire, fate: Fate)
    requires |n.store.registry| <= 4
    ensures |Receive(n, w, fate).0.store.registry| <= 4
  {
    hide Encode, SelfOnly, Rerooted, FindReceipt, MayDeliver;
  }

  lemma StepFits(s: System, e: Event)
    requires |s.n.store.registry| <= 4
    ensures |Step(s, e).n.store.registry| <= 4
  {
    hide Encode, SelfOnly, Size, Receive, PriorGeneration, Without;
    if e.Leaves? {
      WithoutShrinks(s.n.store.registry, e.root);
    }
    if e.Hears? {
      ReceiveFits(s.n, e.w, e.fate);
    }
  }

  /** No run makes a node host more than four components. */
  lemma {:induction false} RegistriesFit(allow: bool, peerAllow: bool, moves: seq<Move>)
    ensures var s := Run(Fresh(allow, peerAllow), moves); |s.n.store.registry| <= 4 && |s.p.store.registry| <= 4
    decreases |moves|
  {
    hide Step;
    if moves != [] {
      var before, move := Run(Fresh(allow, peerAllow), moves[..|moves| - 1]), moves[|moves| - 1];
      RegistriesFit(allow, peerAllow, moves[..|moves| - 1]);
      if move.here {
        StepFits(before, move.event);
        HereOnly(before, move.event);
      } else {
        StepFits(Swapped(before), move.event);
        HereOnly(Swapped(before), move.event);
      }
    }
  }
}
