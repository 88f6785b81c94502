/**
 * Two nodes, a network that may lose, repeat and reorder anything it was given, and crashes
 * at any time: a component is never owned twice, is imported at most once and unchanged, and
 * every letter posted for it arrives exactly once and in order.
 */
module MigrationSafety {
  import opened ObjectIds
  import opened Migrations

  type Letters = map<nat, seq<Bytes>>

  function LettersOf(l: Letters, root: nat): seq<Bytes> {
    if root in l then l[root] else []
  }

  /** The component left; a stray post can fence one that is still registered. */
  predicate Gone(s: Store, r: nat) {
    r in s.fences && r !in s.registry
  }

  // ---- One node by itself ---------------------------------------------------------------------

  ghost predicate DistinctTargets(receipts: seq<Receipt>) {
    forall i, j :: 0 <= i < j < |receipts| ==> receipts[i].target != receipts[j].target && receipts[i].source != receipts[j].source
  }

  ghost predicate StoreOk(s: Store) {
    && (forall r :: r in s.registry ==> r in s.components)
    && (forall i, j :: 0 <= i < j < |s.registry| ==> s.registry[i] != s.registry[j])
    && (forall r :: r in s.components ==> NOBODY < r < s.next)
    && (forall i :: 0 <= i < |s.receipts| ==> NOBODY < s.receipts[i].target < s.next)
    && DistinctTargets(s.receipts)
    && (forall r :: r in s.outboxes ==> r in s.fences)
  }

  /** A departed component is on disk exactly as fenced; nothing can run or change it any more. */
  ghost predicate FenceOk(id: nat, s: Store, r: nat)
    requires r in s.fences
  {
    var record := s.fences[r];
    && record.root == r && r in s.components
    && (r in s.registry ==> record.target == NOBODY && record.forward != 0)
    && (r !in s.registry ==>
          && SelfOnly(s.components[r].caps, r) && |record.digest| <= BUNDLE_MAX
          && record.digest == Encode(BundleFor(id, s, r, record.generation)))
  }

  ghost predicate FencesOk(id: nat, s: Store) {
    forall r :: r in s.fences ==> FenceOk(id, s, r)
  }

  /** The record in memory is the fence on disk. */
  ghost predicate Current(m: Endpoint, s: Store) {
    m.record.root in s.fences && s.fences[m.record.root] == m.record
  }

  /** A failed departure leaves a finished endpoint holding the record of a component still here. */
  ghost predicate Stray(m: Endpoint, s: Store) {
    && m.record.root !in s.fences && m.record.root in s.registry && m.record.root in s.components
    && m.record.target == NOBODY && m.record.forward == 0
  }

  ghost predicate SourceOk(m: Endpoint, s: Store) {
    m.source ==>
      && (m.phase != 3 ==>
            && Current(m, s) && m.record.root !in s.registry && m.record.target == NOBODY && m.record.forward == 0
            && m.total == |m.record.digest| && m.bundle == Some(m.record.digest) && m.received <= m.total)
      && (m.phase == 3 ==> Current(m, s) || Stray(m, s))
  }

  /** Attached means imported here, running here, and not about to leave. */
  ghost predicate AttachedOk(n: Node) {
    n.m.attached != NOBODY && !n.m.source ==>
      n.m.attached in n.store.registry && n.m.attached !in n.store.fences
  }

  // ---- A node and its peer ----------------------------------------------------------------------

  /** This store durably fences exactly this bundle. */
  ghost predicate Fenced(s: Store, root: nat, generation: nat, digest: seq<Cell>) {
    && Gone(s, root)
    && s.fences[root].generation == generation && s.fences[root].digest == digest
  }

  ghost predicate HeadOk(s: Store, head: Head) {
    Fenced(s, head.root, head.generation, head.digest) && head.total == |head.digest|
  }

  /** What was received so far is a prefix of the bundle the peer fenced. */
  ghost predicate TargetOk(m: Endpoint, peer: Store) {
    !m.source && m.bundle.Some? ==>
      && HeadOk(peer, HeadOf(m))
      && m.received == |m.bundle.value| <= m.total
      && m.bundle.value == m.record.digest[..m.received]
  }

  /** The outbox holds a letter that was posted before there was anywhere to send it. */
  predicate Stuck(s: Store, r: nat) {
    r in s.outboxes && s.outboxes[r].target == NOBODY
  }

  /** What was posted behind the fence is what arrived, but for at most the last letter. */
  ghost predicate ReceiptOk(s: Store, receipt: Receipt, posted: Letters, arrived: Letters) {
    && Fenced(s, receipt.source, receipt.generation, receipt.digest)
    && var fence := s.fences[receipt.source];
       && (fence.target == NOBODY || fence.target == receipt.target)
       && receipt.forward <= fence.forward <= receipt.forward + 1
       && (receipt.source !in s.outboxes ==> receipt.forward == fence.forward)
       && (Stuck(s, receipt.source) ==> receipt.forward < fence.forward)
       && |LettersOf(posted, receipt.source)| == fence.forward
       && LettersOf(arrived, receipt.target) == LettersOf(posted, receipt.source)[..receipt.forward]
  }

  ghost predicate ReceiptsOk(s: Store, peer: Store, posted: Letters, arrived: Letters) {
    && (forall i :: 0 <= i < |peer.receipts| ==> ReceiptOk(s, peer.receipts[i], posted, arrived))
    && (forall t :: t in arrived ==> t < peer.next)
  }

  ghost predicate HasReceipt(s: Store, head: Head, target: nat) {
    exists i :: 0 <= i < |s.receipts| && IsReceiptFor(s.receipts[i], head) && s.receipts[i].target == target
  }

  ghost predicate Came(s: Store, source: nat, target: nat) {
    exists i :: 0 <= i < |s.receipts| && s.receipts[i].source == source && s.receipts[i].target == target
  }

  /** A fence that names a target was told so by its receipt; its outbox is the last post. */
  ghost predicate DepartureOk(s: Store, peer: Store, r: nat, posted: Letters)
    requires r in s.fences
  {
    var fence := s.fences[r];
    r !in s.registry ==>
      && |LettersOf(posted, r)| == fence.forward
      && (fence.target != NOBODY ==> Came(peer, r, fence.target))
      && (fence.target == NOBODY ==> fence.forward == 0 || (fence.forward == 1 && Stuck(s, r)))
      && (r in s.outboxes ==>
            && fence.forward != 0 && s.outboxes[r].target in {NOBODY, fence.target}
            && s.outboxes[r].head.root == r && s.outboxes[r].head.generation == fence.generation
            && s.outboxes[r].head.digest == fence.digest && s.outboxes[r].sequence == fence.forward
            && s.outboxes[r].payload == LettersOf(posted, r)[fence.forward - 1])
  }

  ghost predicate DeparturesOk(s: Store, peer: Store, posted: Letters) {
    && (forall r :: r in s.fences ==> DepartureOk(s, peer, r, posted))
    && (forall r :: r in posted ==> r in s.fences)
  }

  /** Everything ever sent is still true. */
  ghost predicate MessageOk(s: Store, w: Wire, posted: Letters) {
    match w
    case Begins(head) => HeadOk(s, head)
    case Ends(head) => HeadOk(s, head)
    case Chunk(head, offset, data) =>
      HeadOk(s, head) && offset + |data| <= head.total && data == head.digest[offset..offset + |data|]
    case Forward(head, target, sequence, payload) =>
      && Fenced(s, head.root, head.generation, head.digest) && target != NOBODY && s.fences[head.root].target == target
      && (sequence == s.fences[head.root].forward ==> !Stuck(s, head.root))
      && 1 <= sequence <= s.fences[head.root].forward && sequence <= |LettersOf(posted, head.root)|
      && payload == LettersOf(posted, head.root)[sequence - 1]
    case Ack(head, offset, target) => offset <= head.total && (target != NOBODY ==> HasReceipt(s, head, target))
    case ForwardAck(head, target, sequence) =>
      exists i :: 0 <= i < |s.receipts| && IsReceiptFor(s.receipts[i], head)
                  && s.receipts[i].target == target && sequence <= s.receipts[i].forward
  }

  ghost predicate MessagesOk(s: Store, out: set<Wire>, posted: Letters) {
    forall w :: w in out ==> MessageOk(s, w, posted)
  }

  /** What the disks of a node and its peer, and the messages of the node, say together. */
  ghost predicate StoresOk(id: nat, s: Store, peer: Store, out: set<Wire>, posted: Letters, arrived: Letters) {
    && StoreOk(s) && FencesOk(id, s)
    && ReceiptsOk(s, peer, posted, arrived)
    && DeparturesOk(s, peer, posted)
    && MessagesOk(s, out, posted)
  }

  ghost predicate MemoryOk(n: Node, peer: Store) {
    !n.recovery ==> SourceOk(n.m, n.store) && AttachedOk(n) && TargetOk(n.m, peer)
  }

  // ---- The system ---------------------------------------------------------------------------------

  /**
   * One node seen from here (`n`), the other (`p`), all they ever sent, and for either side
   * the letters durably posted behind its fences and durably delivered to its imports.
   */
  datatype System = System(n: Node, p: Node, out: set<Wire>, pout: set<Wire>,
                           posted: Letters, pposted: Letters, arrived: Letters, parrived: Letters)

  function Swapped(s: System): System {
    System(s.p, s.n, s.pout, s.out, s.pposted, s.posted, s.parrived, s.arrived)
  }

  ghost predicate Inv(s: System) {
    && s.n.id + s.p.id == 1
    && StoresOk(s.n.id, s.n.store, s.p.store, s.out, s.posted, s.parrived)
    && StoresOk(s.p.id, s.p.store, s.n.store, s.pout, s.pposted, s.arrived)
    && MemoryOk(s.n, s.p.store) && MemoryOk(s.p, s.n.store)
  }

  datatype Event =
    | Leaves(root: nat, isolated: bool, memory: bool, fate: Fate)
    | Resumes(root: nat, memory: bool)
    | Sends
    | Hears(w: Wire, fate: Fate)
    | Posting(payload: Bytes, fate: Fate)
    | Attaches(root: nat)
    | Restarts(allow: bool)
    | Spawns(component: Component, fate: Fate)
    | Runs(root: nat, component: Component, fate: Fate)

  predicate Durably(fate: Fate) {
    fate.Commits? || fate.Lands?
  }

  function Logged(l: Letters, root: nat, payload: Bytes): Letters {
    l[root := LettersOf(l, root) + [payload]]
  }

  /** The letter in this message is due and can be appended. */
  predicate Delivers(n: Node, w: Wire) {
    && !Halted(n) && w.Forward? && !n.m.source && n.m.allow
    && var found := FindReceipt(n.store.receipts, w.head);
       && found.Some?
       && var receipt := n.store.receipts[found.value];
          w.target == receipt.target && w.sequence != receipt.forward && MayDeliver(n, receipt, w.sequence, w.payload)
  }

  /** A new component: four fresh ids, the last one its root. */
  function Spawn(n: Node, c: Component, fate: Fate): Node {
    if n.recovery || |n.store.registry| >= COMPONENT_MAX || n.store.next + 4 > UINT64_MAX then n
    else
      var root := n.store.next + 3;
      var s := n.store.(registry := n.store.registry + [root], next := n.store.next + 4,
                        components := n.store.components[root := c]);
      match fate
      case Commits => n.(store := s)
      case Refused => n
      case _ => Uncertain(n, s, fate)
  }

  /** A handler ran and its effects on the component's memory and mailbox were committed. */
  function RunOn(n: Node, root: nat, c: Component, fate: Fate): Node {
    if !Runnable(n, root) then n
    else
      var s := n.store.(components := n.store.components[root := c]);
      match fate
      case Commits => n.(store := s)
      case Refused => n
      case _ => Uncertain(n, s, fate)
  }

  function Step(s: System, e: Event): System {
    match e
    case Leaves(root, isolated, memory, fate) => s.(n := Leave(s.n, root, isolated, memory, fate))
    case Resumes(root, memory) => s.(n := Resume(s.n, root, memory))
    case Sends => if NextPacket(s.n).Some? then s.(out := s.out + {NextPacket(s.n).value}) else s
    case Hears(w, fate) =>
      if w !in s.pout then s
      else
        var (n, reply) := Receive(s.n, w, fate);
        s.(n := n, out := if reply.Some? then s.out + {reply.value} else s.out,
           arrived := if Delivers(s.n, w) && Durably(fate) then Logged(s.arrived, w.target, w.payload) else s.arrived)
    case Posting(payload, fate) =>
      s.(n := Post(s.n, payload, fate),
         posted := if Posts(s.n, payload) && Durably(fate) then Logged(s.posted, s.n.m.record.root, payload) else s.posted)
    case Attaches(root) => s.(n := Attach(s.n, root))
    case Restarts(allow) => s.(n := Restart(s.n, allow))
    case Spawns(c, fate) => s.(n := Spawn(s.n, c, fate))
    case Runs(root, c, fate) => s.(n := RunOn(s.n, root, c, fate))
  }

  lemma RestartKeeps(s: System, allow: bool)
    requires Inv(s)
    ensures Inv(Step(s, Restarts(allow)))
  {
    hide StoresOk, MemoryOk;
    EmptyMemory(s.n, allow, s.p.store);
  }

  lemma EmptyMemory(n: Node, allow: bool, peer: Store)
    ensures MemoryOk(Restart(n, allow), peer)
  {
  }

  lemma AttachKeeps(s: System, root: nat)
    requires Inv(s)
    ensures Inv(Step(s, Attaches(root)))
  {
    hide StoresOk;
    hide Encode, SelfOnly;
  }

  lemma ResumeKeeps(s: System, root: nat, memory: bool)
    requires Inv(s)
    ensures Inv(Step(s, Resumes(root, memory)))
  {
    hide StoreOk, ReceiptsOk, DeparturesOk, MessagesOk, SelfOnly;
  }

  /** Sending says nothing new. */
  lemma SendKeeps(s: System)
    requires Inv(s)
    ensures Inv(Step(s, Sends))
  {
    hide StoreOk, ReceiptsOk, SelfOnly, Encode;
    var w := NextPacket(s.n);
    if w.Some? {
      assert MessageOk(s.n.store, w.value, s.posted) by {
        if s.n.m.phase == 3 {
          assert DepartureOk(s.n.store, s.p.store, s.n.m.record.root, s.posted);
        }
      }
    }
  }

  // ---- Steps that change a disk -----------------------------------------------------------------

  /** Nothing a peer relies on was taken back. */
  ghost predicate Grows(s: Store, after: Store) {
    && (forall r :: Gone(s, r) ==> Gone(after, r) && after.fences[r].generation == s.fences[r].generation
                                   && after.fences[r].digest == s.fences[r].digest)
    && s.next <= after.next
    && |s.receipts| <= |after.receipts|
    && (forall i :: 0 <= i < |s.receipts| ==>
          s.receipts[i].source == after.receipts[i].source && s.receipts[i].target == after.receipts[i].target)
  }

  lemma PeerMemory(p: Node, s: Store, after: Store)
    requires MemoryOk(p, s) && Grows(s, after)
    ensures MemoryOk(p, after)
  {
  }

  lemma PeerDepartures(peer: Store, s: Store, after: Store, pposted: Letters)
    requires DeparturesOk(peer, s, pposted) && Grows(s, after)
    ensures DeparturesOk(peer, after, pposted)
  {
    forall r | r in peer.fences
      ensures DepartureOk(peer, after, r, pposted)
    {
      assert DepartureOk(peer, s, r, pposted);
      if Came(s, r, peer.fences[r].target) {
        var i :| 0 <= i < |s.receipts| && s.receipts[i].source == r && s.receipts[i].target == peer.fences[r].target;
        assert after.receipts[i].source == r;
      }
    }
  }

  /** Fences, receipts and letters as before, and the fenced components too. */
  ghost predicate SameRecords(s: Store, after: Store) {
    && after.fences == s.fences && after.outboxes == s.outboxes && after.receipts == s.receipts && s.next <= after.next
    && (forall r :: r in s.fences ==> (r in after.registry <==> r in s.registry))
    && (forall r :: r in s.fences && r in s.components ==> r in after.components && after.components[r] == s.components[r])
  }

  lemma FencesStay(id: nat, s: Store, after: Store)
    requires FencesOk(id, s) && SameRecords(s, after)
    ensures FencesOk(id, after)
  {
    forall r | r in after.fences
      ensures FenceOk(id, after, r)
    {
      assert FenceOk(id, s, r);
    }
  }

  lemma DeparturesStay(s: Store, after: Store, peer: Store, posted: Letters)
    requires DeparturesOk(s, peer, posted) && SameRecords(s, after)
    ensures DeparturesOk(after, peer, posted)
  {
    forall r | r in after.fences
      ensures DepartureOk(after, peer, r, posted)
    {
      assert DepartureOk(s, peer, r, posted);
    }
  }

  lemma ReceiptsStay(s: Store, after: Store, peer: Store, posted: Letters, parrived: Letters)
    requires ReceiptsOk(s, peer, posted, parrived) && SameRecords(s, after)
    ensures ReceiptsOk(after, peer, posted, parrived)
  {
    forall i | 0 <= i < |peer.receipts|
      ensures ReceiptOk(after, peer.receipts[i], posted, parrived)
    {
      assert ReceiptOk(s, peer.receipts[i], posted, parrived);
    }
  }

  lemma SameGrows(s: Store, after: Store)
    requires SameRecords(s, after)
    ensures Grows(s, after)
  {
  }

  /** A change that leaves the records alone keeps everything the disks say together. */
  lemma SameStores(id: nat, s: Store, after: Store, peer: Store, out: set<Wire>, posted: Letters, parrived: Letters,
                   pout: set<Wire>, pposted: Letters, arrived: Letters)
    requires StoresOk(id, s, peer, out, posted, parrived) && StoresOk(Other(id), peer, s, pout, pposted, arrived)
    requires SameRecords(s, after) && StoreOk(after)
    ensures StoresOk(id, after, peer, out, posted, parrived) && StoresOk(Other(id), peer, after, pout, pposted, arrived)
    ensures Grows(s, after)
  {
    hide StoreOk, FencesOk, DeparturesOk, ReceiptOk, MessagesOk, Gone, Grows;
    SameGrows(s, after);
    FencesStay(id, s, after);
    DeparturesStay(s, after, peer, posted);
    ReceiptsStay(s, after, peer, posted, parrived);
    PeerDepartures(peer, s, after, pposted);
    MessagesStay(s, after, out, posted);
  }

  lemma RunKeeps(s: System, root: nat, c: Component, fate: Fate)
    requires Inv(s)
    ensures Inv(Step(s, Runs(root, c, fate)))
  {
    hide ReceiptsOk, DeparturesOk, MessagesOk, FencesOk, Grows, TargetOk;
    var n := RunOn(s.n, root, c, fate);
    SameStores(s.n.id, s.n.store, n.store, s.p.store, s.out, s.posted, s.parrived, s.pout, s.pposted, s.arrived);
    PeerMemory(s.p, s.n.store, n.store);
  }

  lemma SpawnStore(id: nat, s: Store, c: Component)
    requires StoreOk(s) && FencesOk(id, s)
    ensures var root := s.next + 3;
            var after := s.(registry := s.registry + [root], next := s.next + 4, components := s.components[root := c]);
            StoreOk(after) && SameRecords(s, after)
  {
    hide SelfOnly, Encode;
    var root := s.next + 3;
    assert forall r :: r in s.registry + [root] <==> r in s.registry || r == root;
    forall i | 0 <= i < |s.registry|
      ensures s.registry[i] < s.next
    {
      assert s.registry[i] in s.registry;
    }
    forall r | r in s.fences
      ensures r < s.next
    {
      assert FenceOk(id, s, r);
    }
  }

  lemma SpawnMemory(n: Node, c: Component, peer: Store)
    requires MemoryOk(n, peer) && !n.recovery && StoreOk(n.store) && FencesOk(n.id, n.store)
    ensures var root := n.store.next + 3;
            MemoryOk(n.(store := n.store.(registry := n.store.registry + [root], next := n.store.next + 4,
                                          components := n.store.components[root := c])), peer)
  {
    hide SelfOnly, Encode, TargetOk;
    assert n.m.record.root in n.store.fences ==> FenceOk(n.id, n.store, n.m.record.root);
  }

  lemma SpawnKeeps(s: System, c: Component, fate: Fate)
    requires Inv(s)
    ensures Inv(Step(s, Spawns(c, fate)))
  {
    hide ReceiptsOk, DeparturesOk, MessagesOk, Grows, FencesOk, StoreOk, MemoryOk, SameRecords;
    var n := Spawn(s.n, c, fate);
    StoppedMemory(n.(recovery := true), s.p.store);
    SpawnStore(s.n.id, s.n.store, c);
    if n.store != s.n.store {
      SpawnMemory(s.n, c, s.p.store);
      SameStores(s.n.id, s.n.store, n.store, s.p.store, s.out, s.posted, s.parrived, s.pout, s.pposted, s.arrived);
      PeerMemory(s.p, s.n.store, n.store);
    }
  }

  /** Messages stay true while fences, outboxes and receipts stay as they are. */
  lemma MessagesStay(s: Store, after: Store, out: set<Wire>, posted: Letters)
    requires MessagesOk(s, out, posted) && SameRecords(s, after)
    ensures MessagesOk(after, out, posted)
  {
    forall w | w in out
      ensures MessageOk(after, w, posted)
    {
      assert MessageOk(s, w, posted);
    }
  }

  // ---- Steps that change one fence ----------------------------------------------------------------

  /** Only the fence, the outbox and the registration of `r` differ. */
  ghost predicate SameBut(s: Store, after: Store, r: nat) {
    && after.receipts == s.receipts && after.components == s.components && after.next == s.next
    && r in after.fences && r in after.components
    && (forall q :: q != r ==> (q in after.fences <==> q in s.fences) && (q in after.outboxes <==> q in s.outboxes)
                               && (q in after.registry <==> q in s.registry))
    && (forall q :: q != r && q in s.fences ==> after.fences[q] == s.fences[q])
    && (forall q :: q != r && q in s.outboxes ==> after.outboxes[q] == s.outboxes[q])
  }

  /** A departed component stays departed; what was said about it is not taken back. */
  ghost predicate Advances(s: Store, after: Store, r: nat) {
    Gone(s, r) ==>
      && Gone(after, r)
      && after.fences[r].generation == s.fences[r].generation && after.fences[r].digest == s.fences[r].digest
      && (s.fences[r].target != NOBODY ==> after.fences[r].target == s.fences[r].target)
      && s.fences[r].forward <= after.fences[r].forward
      && (s.fences[r].forward == after.fences[r].forward && Stuck(after, r) ==> Stuck(s, r))
  }

  ghost predicate MoreLetters(posted: Letters, after: Letters, r: nat) {
    && (forall q :: q != r ==> LettersOf(after, q) == LettersOf(posted, q))
    && LettersOf(posted, r) <= LettersOf(after, r)
    && after.Keys <= posted.Keys + {r}
  }

  lemma FenceMessages(s: Store, after: Store, r: nat, out: set<Wire>, posted: Letters, more: Letters)
    requires MessagesOk(s, out, posted) && SameBut(s, after, r) && Advances(s, after, r) && MoreLetters(posted, more, r)
    ensures MessagesOk(after, out, more)
  {
    forall w | w in out
      ensures MessageOk(after, w, more)
    {
      assert MessageOk(s, w, posted);
    }
  }

  lemma FenceFences(id: nat, s: Store, after: Store, r: nat)
    requires FencesOk(id, s) && SameBut(s, after, r) && FenceOk(id, after, r)
    ensures FencesOk(id, after)
  {
    forall q | q in after.fences
      ensures FenceOk(id, after, q)
    {
      assert q != r ==> FenceOk(id, s, q);
    }
  }

  lemma FenceDepartures(s: Store, after: Store, r: nat, peer: Store, posted: Letters, more: Letters)
    requires DeparturesOk(s, peer, posted) && SameBut(s, after, r) && MoreLetters(posted, more, r)
    requires DepartureOk(after, peer, r, more)
    ensures DeparturesOk(after, peer, more)
  {
    forall q | q in after.fences
      ensures DepartureOk(after, peer, q, more)
    {
      assert q != r ==> DepartureOk(s, peer, q, posted);
    }
  }

  lemma FenceReceipts(s: Store, after: Store, r: nat, peer: Store, posted: Letters, more: Letters, parrived: Letters)
    requires ReceiptsOk(s, peer, posted, parrived) && SameBut(s, after, r) && MoreLetters(posted, more, r)
    requires forall i :: 0 <= i < |peer.receipts| && peer.receipts[i].source == r ==>
               ReceiptOk(after, peer.receipts[i], more, parrived)
    ensures ReceiptsOk(after, peer, more, parrived)
  {
    forall i | 0 <= i < |peer.receipts|
      ensures ReceiptOk(after, peer.receipts[i], more, parrived)
    {
      assert ReceiptOk(s, peer.receipts[i], posted, parrived);
    }
  }

  lemma FenceGrows(s: Store, after: Store, r: nat)
    requires SameBut(s, after, r) && Advances(s, after, r)
    ensures Grows(s, after)
  {
  }

  /** One fence moves forward; everything the disks say together is kept. */
  lemma FenceStores(id: nat, s: Store, after: Store, r: nat, peer: Store, out: set<Wire>, posted: Letters, more: Letters,
                    parrived: Letters, pout: set<Wire>, pposted: Letters, arrived: Letters)
    requires StoresOk(id, s, peer, out, posted, parrived) && StoresOk(Other(id), peer, s, pout, pposted, arrived)
    requires StoreOk(after) && SameBut(s, after, r) && Advances(s, after, r) && MoreLetters(posted, more, r)
    requires FenceOk(id, after, r) && DepartureOk(after, peer, r, more)
    requires forall i :: 0 <= i < |peer.receipts| && peer.receipts[i].source == r ==>
               ReceiptOk(after, peer.receipts[i], more, parrived)
    ensures StoresOk(id, after, peer, out, more, parrived) && StoresOk(Other(id), peer, after, pout, pposted, arrived)
    ensures Grows(s, after)
  {
    hide StoreOk, FencesOk, DeparturesOk, ReceiptOk, MessagesOk, Grows, Advances, MoreLetters, FenceOk, DepartureOk;
    FenceGrows(s, after, r);
    FenceFences(id, s, after, r);
    FenceDepartures(s, after, r, peer, posted, more);
    FenceReceipts(s, after, r, peer, posted, more, parrived);
    FenceMessages(s, after, r, out, posted, more);
    PeerDepartures(peer, s, after, pposted);
  }

  lemma {:induction false} WithoutMeaning(registry: seq<nat>, root: nat)
    requires forall i, j :: 0 <= i < j < |registry| ==> registry[i] != registry[j]
    ensures forall q :: q in Without(registry, root) <==> q in registry && q != root
    ensures forall i, j :: 0 <= i < j < |Without(registry, root)| ==> Without(registry, root)[i] != Without(registry, root)[j]
    decreases |registry|
  {
    if registry != [] {
      assert registry == [registry[0]] + registry[1..];
      WithoutMeaning(registry[1..], root);
      assert registry[0] !in registry[1..];
    }
  }

  /** Nothing was imported of a component that has not left. */
  lemma NoReceipt(s: Store, peer: Store, r: nat, posted: Letters, parrived: Letters)
    requires ReceiptsOk(s, peer, posted, parrived) && !Gone(s, r)
    ensures forall i :: 0 <= i < |peer.receipts| ==> peer.receipts[i].source != r
  {
    assert forall i :: 0 <= i < |peer.receipts| ==> ReceiptOk(s, peer.receipts[i], posted, parrived);
  }

  lemma StoppedMemory(n: Node, peer: Store)
    requires n.recovery
    ensures MemoryOk(n, peer)
  {
  }

  /** The fence and the registry change together, and only for a component that was here. */
  lemma LeaveStore(s: System, root: nat, record: Record, after: Store)
    requires Inv(s) && root in s.n.store.components && root !in s.n.store.fences && root in s.n.store.registry
    requires SelfOnly(s.n.store.components[root].caps, root)
    requires record.root == root && record.target == NOBODY && record.forward == 0 && |record.digest| <= BUNDLE_MAX
    requires record.digest == Encode(BundleFor(s.n.id, s.n.store, root, record.generation))
    requires after == s.n.store.(registry := Without(s.n.store.registry, root), fences := s.n.store.fences[root := record])
    ensures StoresOk(s.n.id, after, s.p.store, s.out, s.posted, s.parrived)
    ensures StoresOk(s.p.id, s.p.store, after, s.pout, s.pposted, s.arrived)
    ensures Grows(s.n.store, after) && root !in after.registry
  {
    hide FencesOk, MessagesOk, Grows, SelfOnly, Encode, MemoryOk;
    var st := s.n.store;
    WithoutMeaning(st.registry, root);
    NoReceipt(st, s.p.store, root, s.posted, s.parrived);
    FenceStores(s.n.id, st, after, root, s.p.store, s.out, s.posted, s.posted, s.parrived, s.pout, s.pposted, s.arrived);
  }

  lemma EncodeSize(b: Bundle)
    ensures |Encode(b)| == Size(b)
  {
  }

  /** A failed departure overwrites the record of an endpoint that is not in the middle of anything. */
  lemma LeaveFails(n: Node, peer: Store, record: Record, total: nat)
    requires MemoryOk(n, peer) && !n.recovery && MayLeave(n, record.root) && record.target == NOBODY && record.forward == 0
    ensures MemoryOk(n.(m := n.m.(record := record)), peer)
    ensures MemoryOk(n.(m := n.m.(record := record, bundle := None, total := total, received := 0)), peer)
  {
  }

  lemma LeaveSucceeds(n: Node, peer: Store, record: Record, after: Store)
    requires !n.recovery && record.target == NOBODY && record.forward == 0
    requires record.root in after.fences && after.fences[record.root] == record && record.root !in after.registry
    ensures MemoryOk(n.(store := after,
                        m := n.m.(record := record, bundle := Some(record.digest), total := |record.digest|, received := 0,
                                  source := true, phase := 0,
                                  attached := if n.m.attached == record.root then NOBODY else n.m.attached)), peer)
  {
  }

  lemma LeaveKeeps(s: System, root: nat, isolated: bool, memory: bool, fate: Fate)
    requires Inv(s)
    ensures Inv(Step(s, Leaves(root, isolated, memory, fate)))
  {
    hide StoresOk, SelfOnly, Encode, Grows, Size, Without, PriorGeneration, MemoryOk;
    var n := s.n;
    StoppedMemory(Step(s, Leaves(root, isolated, memory, fate)).n.(recovery := true), s.p.store);
    if !Halted(n) && isolated && MayLeave(n, root) {
      var generation := PriorGeneration(n.store.receipts, root) + 1;
      var b := BundleFor(n.id, n.store, root, generation);
      LeaveFails(n, s.p.store, Record(root, 1, [], NOBODY, 0), 0);
      LeaveFails(n, s.p.store, Record(root, generation, [], NOBODY, 0), 0);
      if generation <= UINT64_MAX && Size(b) <= BUNDLE_MAX && memory {
        var record := Record(root, generation, Encode(b), NOBODY, 0);
        var after := n.store.(registry := Without(n.store.registry, root), fences := n.store.fences[root := record]);
        EncodeSize(b);
        LeaveStore(s, root, record, after);
        PeerMemory(s.p, n.store, after);
        LeaveFails(n, s.p.store, record, Size(b));
        LeaveSucceeds(n, s.p.store, record, after);
      }
    }
  }

  // ---- Posting and hearing acknowledgements -------------------------------------------------------

  /** The store once one more letter is posted. */
  function PostedStore(s: Store, m: Endpoint, payload: Bytes): Store {
    var record := m.record.(forward := m.record.forward + 1);
    s.(fences := s.fences[record.root := record],
       outboxes := s.outboxes[record.root := Letter(HeadOf(m), record.target, record.forward, payload)])
  }

  lemma PostFence(id: nat, s: Store, m: Endpoint, payload: Bytes)
    requires FencesOk(id, s) && StoreOk(s) && (Current(m, s) || Stray(m, s)) && m.record.root !in s.outboxes
    ensures StoreOk(PostedStore(s, m, payload)) && SameBut(s, PostedStore(s, m, payload), m.record.root)
    ensures FenceOk(id, PostedStore(s, m, payload), m.record.root)
    ensures Advances(s, PostedStore(s, m, payload), m.record.root)
  {
    hide SelfOnly, Encode, DistinctTargets;
    assert m.record.root in s.fences ==> FenceOk(id, s, m.record.root);
  }

  lemma PostLetters(posted: Letters, r: nat, payload: Bytes)
    ensures MoreLetters(posted, Logged(posted, r, payload), r)
    ensures LettersOf(Logged(posted, r, payload), r) == LettersOf(posted, r) + [payload]
  {
  }

  lemma PostDeparture(s: Store, peer: Store, m: Endpoint, posted: Letters, payload: Bytes)
    requires DeparturesOk(s, peer, posted) && (Current(m, s) || Stray(m, s)) && m.record.root !in s.outboxes
    ensures DepartureOk(PostedStore(s, m, payload), peer, m.record.root, Logged(posted, m.record.root, payload))
  {
    PostLetters(posted, m.record.root, payload);
    assert m.record.root in s.fences ==> DepartureOk(s, peer, m.record.root, posted);
  }

  lemma PostReceipt(s: Store, m: Endpoint, receipt: Receipt, posted: Letters, parrived: Letters, payload: Bytes)
    requires ReceiptOk(s, receipt, posted, parrived) && receipt.source == m.record.root && Current(m, s)
    requires m.record.root !in s.outboxes
    ensures ReceiptOk(PostedStore(s, m, payload), receipt, Logged(posted, m.record.root, payload), parrived)
  {
    PostLetters(posted, m.record.root, payload);
  }

  lemma PostReceipts(s: Store, peer: Store, m: Endpoint, posted: Letters, parrived: Letters, payload: Bytes)
    requires ReceiptsOk(s, peer, posted, parrived) && (Current(m, s) || Stray(m, s)) && m.record.root !in s.outboxes
    ensures forall i :: 0 <= i < |peer.receipts| && peer.receipts[i].source == m.record.root ==>
              ReceiptOk(PostedStore(s, m, payload), peer.receipts[i], Logged(posted, m.record.root, payload), parrived)
  {
    hide ReceiptOk, PostedStore, Logged;
    if Current(m, s) {
      forall i | 0 <= i < |peer.receipts| && peer.receipts[i].source == m.record.root
        ensures ReceiptOk(PostedStore(s, m, payload), peer.receipts[i], Logged(posted, m.record.root, payload), parrived)
      {
        PostReceipt(s, m, peer.receipts[i], posted, parrived, payload);
      }
    } else {
      NoReceipt(s, peer, m.record.root, posted, parrived);
    }
  }

  lemma PostMemory(n: Node, payload: Bytes, peer: Store)
    requires MemoryOk(n, peer) && !n.recovery && Posts(n, payload)
    ensures MemoryOk(n.(store := PostedStore(n.store, n.m, payload),
                        m := n.m.(record := n.m.record.(forward := n.m.record.forward + 1))), peer)
    ensures Current(n.m, n.store) || Stray(n.m, n.store)
  {
  }

  lemma PostKeeps(s: System, payload: Bytes, fate: Fate)
    requires Inv(s)
    ensures Inv(Step(s, Posting(payload, fate)))
  {
    hide StoreOk, FencesOk, DeparturesOk, ReceiptsOk, MessagesOk, Grows, MemoryOk, Logged, FenceOk, DepartureOk, Advances,
         MoreLetters, SameBut, ReceiptOk, Current, Stray;
    var n, m := s.n, s.n.m;
    StoppedMemory(n.(recovery := true), s.p.store);
    StoppedMemory(n.(store := PostedStore(n.store, m, payload), recovery := true), s.p.store);
    if Posts(n, payload) {
      var after := PostedStore(n.store, m, payload);
      PostMemory(n, payload, s.p.store);
      PostFence(n.id, n.store, m, payload);
      PostLetters(s.posted, m.record.root, payload);
      PostDeparture(n.store, s.p.store, m, s.posted, payload);
      PostReceipts(n.store, s.p.store, m, s.posted, s.parrived, payload);
      FenceStores(n.id, n.store, after, m.record.root, s.p.store, s.out, s.posted, Logged(s.posted, m.record.root, payload),
                  s.parrived, s.pout, s.pposted, s.arrived);
      PeerMemory(s.p, n.store, after);
    }
  }

  /** Whoever has a receipt for it, the component it names has left. */
  lemma ReceiptMeansGone(s: Store, peer: Store, posted: Letters, parrived: Letters, i: nat)
    requires ReceiptsOk(s, peer, posted, parrived) && i < |peer.receipts|
    ensures ReceiptOk(s, peer.receipts[i], posted, parrived) && Gone(s, peer.receipts[i].source)
  {
  }

  lemma OneReceipt(peer: Store, i: nat)
    requires DistinctTargets(peer.receipts) && i < |peer.receipts|
    ensures forall k :: 0 <= k < |peer.receipts| && peer.receipts[k].source == peer.receipts[i].source ==> k == i
  {
  }

  // A letter was acknowledged: the outbox is cleared.

  lemma ClearFence(id: nat, s: Store, r: nat)
    requires FencesOk(id, s) && StoreOk(s) && r in s.fences
    ensures var after := s.(outboxes := s.outboxes - {r});
            StoreOk(after) && SameBut(s, after, r) && FenceOk(id, after, r) && Advances(s, after, r)
  {
    hide SelfOnly, Encode, DistinctTargets;
    assert FenceOk(id, s, r);
  }

  lemma SameLetters(posted: Letters, r: nat)
    ensures MoreLetters(posted, posted, r)
  {
  }

  lemma ClearRest(s: Store, peer: Store, r: nat, i: nat, posted: Letters, parrived: Letters)
    requires DeparturesOk(s, peer, posted) && ReceiptsOk(s, peer, posted, parrived) && DistinctTargets(peer.receipts)
    requires r in s.fences && i < |peer.receipts| && peer.receipts[i].source == r
    requires s.fences[r].forward <= peer.receipts[i].forward
    ensures var after := s.(outboxes := s.outboxes - {r});
            && DepartureOk(after, peer, r, posted)
            && forall k :: 0 <= k < |peer.receipts| && peer.receipts[k].source == r ==>
                 ReceiptOk(after, peer.receipts[k], posted, parrived)
  {
    assert DepartureOk(s, peer, r, posted);
    OneReceipt(peer, i);
    ReceiptMeansGone(s, peer, posted, parrived, i);
  }

  lemma ClearMemory(n: Node, peer: Store, r: nat)
    requires MemoryOk(n, peer)
    ensures MemoryOk(n.(store := n.store.(outboxes := n.store.outboxes - {r})), peer)
  {
  }

  lemma HearForwardAckKeeps(s: System, w: Wire, fate: Fate)
    requires Inv(s) && w in s.pout && w.ForwardAck?
    ensures Inv(Step(s, Hears(w, fate)))
  {
    hide StoreOk, FencesOk, DeparturesOk, ReceiptsOk, Grows, MemoryOk, FenceOk, DepartureOk, Advances, MoreLetters, SameBut,
         ReceiptOk, Transfer, Deliver, HearAck, FindReceipt;
    var n, r := s.n, s.n.m.record.root;
    var after := n.store.(outboxes := n.store.outboxes - {r});
    StoppedMemory(n.(recovery := true), s.p.store);
    StoppedMemory(n.(store := after, recovery := true), s.p.store);
    if !Halted(n) && n.m.source && Matching(n.m, w.head) && w.target == n.m.record.target && w.sequence == n.m.record.forward
       && OutboxOk(n) {
      assert MessageOk(s.p.store, w, s.pposted);
      var i :| 0 <= i < |s.p.store.receipts| && IsReceiptFor(s.p.store.receipts[i], w.head)
               && s.p.store.receipts[i].target == w.target && w.sequence <= s.p.store.receipts[i].forward;
      PostedRecord(n, s.p.store);
      StoreFacts(s.p.store);
      ClearFence(n.id, n.store, r);
      ClearRest(n.store, s.p.store, r, i, s.posted, s.parrived);
      SameLetters(s.posted, r);
      ClearMemory(n, s.p.store, r);
      FenceStores(n.id, n.store, after, r, s.p.store, s.out, s.posted, s.posted, s.parrived, s.pout, s.pposted, s.arrived);
      PeerMemory(s.p, n.store, after);
    }
  }

  lemma StoreFacts(s: Store)
    requires StoreOk(s)
    ensures DistinctTargets(s.receipts)
  {
  }

  /** An endpoint with a named target holds the fence itself. */
  lemma PostedRecord(n: Node, peer: Store)
    requires MemoryOk(n, peer) && !n.recovery && n.m.source && n.m.record.target != NOBODY
    ensures Current(n.m, n.store) && n.m.phase == 3
  {
  }

  // The import was acknowledged: the fence learns its target.

  lemma NameFence(id: nat, s: Store, r: nat, target: nat)
    requires FencesOk(id, s) && StoreOk(s) && Gone(s, r) && s.fences[r].target == NOBODY
    ensures var after := s.(fences := s.fences[r := s.fences[r].(target := target)]);
            StoreOk(after) && SameBut(s, after, r) && FenceOk(id, after, r) && Advances(s, after, r)
  {
    hide SelfOnly, Encode, DistinctTargets;
    assert FenceOk(id, s, r);
  }

  lemma NameRest(s: Store, peer: Store, r: nat, i: nat, posted: Letters, parrived: Letters)
    requires DeparturesOk(s, peer, posted) && ReceiptsOk(s, peer, posted, parrived) && DistinctTargets(peer.receipts)
    requires Gone(s, r) && s.fences[r].target == NOBODY && i < |peer.receipts| && peer.receipts[i].source == r
    ensures var after := s.(fences := s.fences[r := s.fences[r].(target := peer.receipts[i].target)]);
            && DepartureOk(after, peer, r, posted)
            && forall k :: 0 <= k < |peer.receipts| && peer.receipts[k].source == r ==>
                 ReceiptOk(after, peer.receipts[k], posted, parrived)
  {
    assert DepartureOk(s, peer, r, posted);
    OneReceipt(peer, i);
    ReceiptMeansGone(s, peer, posted, parrived, i);
  }

  lemma NameMemory(n: Node, peer: Store, target: nat)
    requires MemoryOk(n, peer) && !n.recovery && n.m.source && target != NOBODY
    ensures Current(n.m, n.store) ==>
              var record := n.m.record.(target := target);
              MemoryOk(Arrived(n.(store := n.store.(fences := n.store.fences[record.root := record])), record), peer)
    ensures n.m.record.target == target ==> MemoryOk(Arrived(n, n.m.record), peer)
  {
  }

  lemma ProgressMemory(n: Node, peer: Store, offset: nat)
    requires MemoryOk(n, peer) && n.m.source && n.m.phase != 3 && offset <= n.m.total
    ensures MemoryOk(n.(m := n.m.(phase := 1, received := offset)), peer)
  {
  }

  /** An acknowledged import is one whose component has left. */
  lemma AckedIsGone(n: Node, p: Store, posted: Letters, parrived: Letters, i: nat)
    requires ReceiptsOk(n.store, p, posted, parrived) && i < |p.receipts| && MemoryOk(n, p) && !n.recovery
    requires n.m.source && p.receipts[i].source == n.m.record.root
    ensures Gone(n.store, n.m.record.root) && Current(n.m, n.store)
  {
    ReceiptMeansGone(n.store, p, posted, parrived, i);
  }

  lemma HearAckKeeps(s: System, w: Wire, fate: Fate)
    requires Inv(s) && w in s.pout && w.Ack?
    ensures Inv(Step(s, Hears(w, fate)))
  {
    hide StoreOk, FencesOk, DeparturesOk, ReceiptsOk, Grows, MemoryOk, FenceOk, DepartureOk, Advances, MoreLetters, SameBut,
         ReceiptOk, Transfer, Deliver, HearForwardAck, FindReceipt, Current;
    var n, r := s.n, s.n.m.record.root;
    StoppedMemory(n.(recovery := true), s.p.store);
    if !Halted(n) && n.m.source && Matching(n.m, w.head) {
      assert MessageOk(s.p.store, w, s.pposted);
      if w.target == NOBODY {
        if n.m.phase != 3 {
          ProgressMemory(n, s.p.store, w.offset);
        }
      } else {
        NameMemory(n, s.p.store, w.target);
        if n.m.record.target == NOBODY {
          var i :| 0 <= i < |s.p.store.receipts| && IsReceiptFor(s.p.store.receipts[i], w.head)
                   && s.p.store.receipts[i].target == w.target;
          AckedIsGone(n, s.p.store, s.posted, s.parrived, i);
          HearNameKeeps(s, w, fate, i);
        }
      }
    }
  }

  lemma HearNameKeeps(s: System, w: Wire, fate: Fate, i: nat)
    requires Inv(s) && w in s.pout && w.Ack? && w.target != NOBODY
    requires !Halted(s.n) && s.n.m.source && Matching(s.n.m, w.head) && s.n.m.record.target == NOBODY
    requires Gone(s.n.store, s.n.m.record.root) && Current(s.n.m, s.n.store)
    requires i < |s.p.store.receipts| && IsReceiptFor(s.p.store.receipts[i], w.head) && s.p.store.receipts[i].target == w.target
    ensures Inv(Step(s, Hears(w, fate)))
  {
    hide StoreOk, FencesOk, DeparturesOk, ReceiptsOk, Grows, MemoryOk, FenceOk, DepartureOk, Advances, MoreLetters, SameBut,
         ReceiptOk, Transfer, Deliver, HearForwardAck, FindReceipt, MessagesOk, Gone;
    var n, r := s.n, s.n.m.record.root;
    var record := n.m.record.(target := w.target);
    var after := n.store.(fences := n.store.fences[r := record]);
    StoppedMemory(n.(recovery := true), s.p.store);
    StoppedMemory(n.(store := after, recovery := true), s.p.store);
    StoreFacts(s.p.store);
    NameMemory(n, s.p.store, w.target);
    NameFence(n.id, n.store, r, w.target);
    NameRest(n.store, s.p.store, r, i, s.posted, s.parrived);
    SameLetters(s.posted, r);
    FenceStores(n.id, n.store, after, r, s.p.store, s.out, s.posted, s.posted, s.parrived, s.pout, s.pposted, s.arrived);
    PeerMemory(s.p, n.store, after);
  }

  // ---- The target ---------------------------------------------------------------------------------

  /** A reply that is true joins what was sent. */
  lemma ReplyKeeps(id: nat, s: Store, peer: Store, out: set<Wire>, posted: Letters, parrived: Letters, reply: Wire)
    requires StoresOk(id, s, peer, out, posted, parrived) && MessageOk(s, reply, posted)
    ensures StoresOk(id, s, peer, out + {reply}, posted, parrived)
  {
    hide StoreOk, FencesOk, ReceiptsOk, DeparturesOk, MessageOk;
  }

  lemma FoundReceipt(s: Store, head: Head, i: nat)
    requires i < |s.receipts| && IsReceiptFor(s.receipts[i], head)
    ensures HasReceipt(s, head, s.receipts[i].target)
  {
  }

  /** Asking again after the import is answered from the receipt. */
  lemma HearKnownKeeps(s: System, w: Wire, fate: Fate)
    requires Inv(s) && w in s.pout && (w.Begins? || w.Chunk? || w.Ends?)
    requires !Halted(s.n) && !s.n.m.source && s.n.m.allow && FindReceipt(s.n.store.receipts, w.head).Some?
    ensures Inv(Step(s, Hears(w, fate)))
  {
    hide StoresOk, Transfer, Deliver;
    var i := FindReceipt(s.n.store.receipts, w.head).value;
    FoundReceipt(s.n.store, w.head, i);
    ReplyKeeps(s.n.id, s.n.store, s.p.store, s.out, s.posted, s.parrived,
               Ack(w.head, w.head.total, s.n.store.receipts[i].target));
  }

  /** A transfer message extends the received prefix or repeats part of it. */
  lemma TransferMemory(n: Node, peer: Store, w: Wire, fate: Fate, pposted: Letters)
    requires MemoryOk(n, peer) && MessageOk(peer, w, pposted) && (w.Begins? || w.Chunk?)
    requires !Halted(n) && !n.m.source && n.m.allow
    ensures var (after, reply) := Transfer(n, w, fate);
            && MemoryOk(after, peer) && after.store == n.store && after.id == n.id
            && (reply.Some? ==> reply.value.Ack? && reply.value.offset <= reply.value.head.total && reply.value.target == NOBODY)
  {
    hide Import, Fenced;
  }

  lemma HearTransferKeeps(s: System, w: Wire, fate: Fate)
    requires Inv(s) && w in s.pout && (w.Begins? || w.Chunk?)
    requires !Halted(s.n) && !s.n.m.source && s.n.m.allow && FindReceipt(s.n.store.receipts, w.head).None?
    ensures Inv(Step(s, Hears(w, fate)))
  {
    hide StoreOk, FencesOk, ReceiptsOk, DeparturesOk, Deliver, Transfer, FindReceipt, HearAck, HearForwardAck, Logged, MessageOk,
         MemoryOk;
    assert MessageOk(s.p.store, w, s.pposted);
    TransferMemory(s.n, s.p.store, w, fate, s.pposted);
    var (n, reply) := Transfer(s.n, w, fate);
    if reply.Some? {
      AckIsTrue(s.n.store, reply.value, s.posted);
      ReplyKeeps(s.n.id, s.n.store, s.p.store, s.out, s.posted, s.parrived, reply.value);
    }
  }

  lemma AckIsTrue(s: Store, w: Wire, posted: Letters)
    requires w.Ack? && w.offset <= w.head.total && w.target == NOBODY
    ensures MessageOk(s, w, posted)
  {
  }

  // Import: the registry, the component and its receipt appear together.

  /** Nothing was imported of this bundle, so nothing was imported of its component. */
  lemma NotImported(s: Store, peer: Store, pposted: Letters, arrived: Letters, head: Head)
    requires ReceiptsOk(peer, s, pposted, arrived) && HeadOk(peer, head) && FindReceipt(s.receipts, head).None?
    ensures forall i :: 0 <= i < |s.receipts| ==> s.receipts[i].source != head.root
  {
    assert forall i :: 0 <= i < |s.receipts| ==> ReceiptOk(peer, s.receipts[i], pposted, arrived);
  }

  lemma ImportStore(n: Node, head: Head)
    requires StoreOk(n.store) && FencesOk(n.id, n.store) && MayImport(n, head)
    requires forall i :: 0 <= i < |n.store.receipts| ==> n.store.receipts[i].source != head.root
    ensures StoreOk(ImportedStore(n, head)) && FencesOk(n.id, ImportedStore(n, head))
  {
    hide SelfOnly, Encode;
    var s, after, root := n.store, ImportedStore(n, head), n.store.next + 3;
    assert forall r :: r in after.registry <==> r in s.registry || r == root;
    forall i | 0 <= i < |s.registry|
      ensures s.registry[i] < s.next
    {
      assert s.registry[i] in s.registry;
    }
    forall r | r in after.fences
      ensures FenceOk(n.id, after, r)
    {
      assert FenceOk(n.id, s, r);
    }
  }

  lemma ImportOwnSide(n: Node, head: Head, peer: Store, out: set<Wire>, posted: Letters, parrived: Letters)
    requires FencesOk(n.id, n.store) && MayImport(n, head)
    requires ReceiptsOk(n.store, peer, posted, parrived) && DeparturesOk(n.store, peer, posted)
    requires MessagesOk(n.store, out, posted)
    ensures ReceiptsOk(ImportedStore(n, head), peer, posted, parrived) && DeparturesOk(ImportedStore(n, head), peer, posted)
    ensures MessagesOk(ImportedStore(n, head), out, posted)
    ensures Grows(n.store, ImportedStore(n, head))
  {
    hide SelfOnly, Encode, FencesOk;
    var s, after := n.store, ImportedStore(n, head);
    assert forall r :: r in after.registry <==> r in s.registry || r == s.next + 3;
    forall i | 0 <= i < |peer.receipts|
      ensures ReceiptOk(after, peer.receipts[i], posted, parrived)
    {
      assert ReceiptOk(s, peer.receipts[i], posted, parrived);
    }
    forall r | r in after.fences
      ensures DepartureOk(after, peer, r, posted)
    {
      assert DepartureOk(s, peer, r, posted);
    }
    forall w | w in out
      ensures MessageOk(after, w, posted)
    {
      assert MessageOk(s, w, posted);
      assert forall i :: 0 <= i < |s.receipts| ==> after.receipts[i] == s.receipts[i];
    }
    assert forall i :: 0 <= i < |s.receipts| ==> after.receipts[i] == s.receipts[i];
  }

  lemma ImportPeerSide(n: Node, head: Head, peer: Store, pposted: Letters, arrived: Letters)
    requires MayImport(n, head) && HeadOk(peer, head) && FindReceipt(n.store.receipts, head).None?
    requires ReceiptsOk(peer, n.store, pposted, arrived) && DeparturesOk(peer, n.store, pposted)
    ensures ReceiptsOk(peer, ImportedStore(n, head), pposted, arrived)
  {
    hide SelfOnly, Encode;
    var s, after := n.store, ImportedStore(n, head);
    NotImported(s, peer, pposted, arrived, head);
    assert DepartureOk(peer, s, head.root, pposted);
    forall i | 0 <= i < |after.receipts|
      ensures ReceiptOk(peer, after.receipts[i], pposted, arrived)
    {
      if i < |s.receipts| {
        assert ReceiptOk(peer, s.receipts[i], pposted, arrived);
      }
    }
  }

  lemma ImportMemory(n: Node, head: Head, peer: Store)
    requires MemoryOk(n, peer) && !n.recovery && !n.m.source && MayImport(n, head)
    ensures var root := n.store.next + 3;
            MemoryOk(n.(store := ImportedStore(n, head),
                        m := n.m.(imported := root, record := n.m.record.(target := root), bundle := None, received := 0)), peer)
  {
    hide SelfOnly, Encode;
  }

  lemma ImportReceipt(n: Node, head: Head)
    requires MayImport(n, head)
    ensures HasReceipt(ImportedStore(n, head), head, n.store.next + 3)
  {
    hide SelfOnly, Encode;
    var after := ImportedStore(n, head);
    assert after.receipts[|n.store.receipts|].target == n.store.next + 3;
  }

  lemma WholeBundle(n: Node, head: Head)
    requires MayImport(n, head)
    ensures head.digest != []
  {
  }

  lemma HearEndKeeps(s: System, w: Wire, fate: Fate)
    requires Inv(s) && w in s.pout && w.Ends?
    requires !Halted(s.n) && !s.n.m.source && s.n.m.allow && FindReceipt(s.n.store.receipts, w.head).None?
    ensures Inv(Step(s, Hears(w, fate)))
  {
    hide StoreOk, FencesOk, ReceiptsOk, DeparturesOk, Deliver, FindReceipt, MayImport, ImportedStore, Grows, MemoryOk, HeadOk,
         MessagesOk;
    var n := s.n;
    StoppedMemory(n.(recovery := true), s.p.store);
    if n.m.bundle.Some? && Matching(n.m, w.head) && n.m.received == n.m.total && MayImport(n, w.head) {
      WholeBundle(n, w.head);
      var after := ImportedStore(n, w.head);
      StoppedMemory(n.(store := after, recovery := true), s.p.store);
      HeardHead(s, w);
      NotImported(n.store, s.p.store, s.pposted, s.arrived, w.head);
      ImportStore(n, w.head);
      ImportOwnSide(n, w.head, s.p.store, s.out, s.posted, s.parrived);
      ImportPeerSide(n, w.head, s.p.store, s.pposted, s.arrived);
      PeerDepartures(s.p.store, n.store, after, s.pposted);
      PeerMemory(s.p, n.store, after);
      ImportMemory(n, w.head, s.p.store);
      ImportReceipt(n, w.head);
      ReplyKeeps(n.id, after, s.p.store, s.out, s.posted, s.parrived, Ack(w.head, w.head.total, n.store.next + 3));
    }
  }

  lemma HeardHead(s: System, w: Wire)
    requires Inv(s) && w in s.pout && w.Ends?
    ensures HeadOk(s.p.store, w.head)
  {
    assert MessageOk(s.p.store, w, s.pposted);
  }

  // Delivery: the mailbox and the receipt's sequence move together.

  lemma DeliverStore(n: Node, peer: Store, index: nat, payload: Bytes)
    requires StoreOk(n.store) && FencesOk(n.id, n.store) && MemoryOk(n, peer) && !n.recovery && !n.m.source
    requires index < |n.store.receipts| && n.m.attached == n.store.receipts[index].target
    requires n.store.receipts[index].target in n.store.components
    ensures StoreOk(DeliveredStore(n.store, index, payload)) && FencesOk(n.id, DeliveredStore(n.store, index, payload))
    ensures Grows(n.store, DeliveredStore(n.store, index, payload))
    ensures MemoryOk(n.(store := DeliveredStore(n.store, index, payload), m := n.m.(imported := n.m.attached)), peer)
  {
    hide SelfOnly, Encode;
    var after := DeliveredStore(n.store, index, payload);
    forall r | r in after.fences
      ensures FenceOk(n.id, after, r)
    {
      assert FenceOk(n.id, n.store, r);
    }
  }

  lemma DeliverOwnSide(s: Store, index: nat, payload: Bytes, peer: Store, out: set<Wire>, posted: Letters, parrived: Letters)
    requires index < |s.receipts| && s.receipts[index].target in s.components
    requires ReceiptsOk(s, peer, posted, parrived) && DeparturesOk(s, peer, posted) && MessagesOk(s, out, posted)
    ensures var after := DeliveredStore(s, index, payload);
            ReceiptsOk(after, peer, posted, parrived) && DeparturesOk(after, peer, posted) && MessagesOk(after, out, posted)
  {
    var after := DeliveredStore(s, index, payload);
    forall i | 0 <= i < |peer.receipts|
      ensures ReceiptOk(after, peer.receipts[i], posted, parrived)
    {
      assert ReceiptOk(s, peer.receipts[i], posted, parrived);
    }
    forall r | r in after.fences
      ensures DepartureOk(after, peer, r, posted)
    {
      assert DepartureOk(s, peer, r, posted);
    }
    forall w | w in out
      ensures MessageOk(after, w, posted)
    {
      assert MessageOk(s, w, posted);
      assert forall i :: 0 <= i < |s.receipts| ==> after.receipts[i] == s.receipts[i] || i == index;
      DeliverMessage(s, index, payload, w, posted);
    }
  }

  lemma DeliverMessage(s: Store, index: nat, payload: Bytes, w: Wire, posted: Letters)
    requires index < |s.receipts| && s.receipts[index].target in s.components && MessageOk(s, w, posted)
    ensures MessageOk(DeliveredStore(s, index, payload), w, posted)
  {
    var after := DeliveredStore(s, index, payload);
    match w {
      case Ack(head, offset, target) =>
        if target != NOBODY {
          var i :| 0 <= i < |s.receipts| && IsReceiptFor(s.receipts[i], head) && s.receipts[i].target == target;
          assert IsReceiptFor(after.receipts[i], head) && after.receipts[i].target == target;
        }
      case ForwardAck(head, target, sequence) =>
        var i :| 0 <= i < |s.receipts| && IsReceiptFor(s.receipts[i], head) && s.receipts[i].target == target
                 && sequence <= s.receipts[i].forward;
        assert IsReceiptFor(after.receipts[i], head) && after.receipts[i].target == target
               && sequence <= after.receipts[i].forward;
      case _ =>
    }
  }

  /** The letter delivered is the next one posted. */
  lemma DeliverPeerSide(s: Store, index: nat, peer: Store, w: Wire, pposted: Letters, arrived: Letters)
    requires StoreOk(s) && ReceiptsOk(peer, s, pposted, arrived)
    requires index < |s.receipts| && s.receipts[index].target in s.components
    requires w.Forward? && MessageOk(peer, w, pposted) && IsReceiptFor(s.receipts[index], w.head)
    requires w.target == s.receipts[index].target && w.sequence == s.receipts[index].forward + 1
    ensures ReceiptsOk(peer, DeliveredStore(s, index, w.payload), pposted, Logged(arrived, w.target, w.payload))
  {
    var after, more := DeliveredStore(s, index, w.payload), Logged(arrived, w.target, w.payload);
    assert ReceiptOk(peer, s.receipts[index], pposted, arrived);
    PostLetters(arrived, w.target, w.payload);
    forall i | 0 <= i < |after.receipts|
      ensures ReceiptOk(peer, after.receipts[i], pposted, more)
    {
      assert ReceiptOk(peer, s.receipts[i], pposted, arrived);
      if i == index {
        var letters := LettersOf(pposted, s.receipts[index].source);
        assert letters[..w.sequence] == letters[..w.sequence - 1] + [letters[w.sequence - 1]];
      }
    }
  }

  lemma DeliveredAck(s: Store, index: nat, head: Head, sequence: nat, posted: Letters)
    requires index < |s.receipts| && IsReceiptFor(s.receipts[index], head) && sequence <= s.receipts[index].forward
    ensures MessageOk(s, ForwardAck(head, s.receipts[index].target, sequence), posted)
  {
  }

  lemma HearForwardKeeps(s: System, w: Wire, fate: Fate)
    requires Inv(s) && w in s.pout && w.Forward?
    requires !Halted(s.n) && !s.n.m.source && s.n.m.allow
    ensures Inv(Step(s, Hears(w, fate)))
  {
    hide StoreOk, FencesOk, ReceiptsOk, DeparturesOk, Transfer, DeliveredStore, Grows, MemoryOk, MessagesOk, MessageOk, Logged,
         IsReceiptFor;
    var n := s.n;
    StoppedMemory(n.(recovery := true), s.p.store);
    var found := FindReceipt(n.store.receipts, w.head);
    if found.Some? && w.target == n.store.receipts[found.value].target {
      var receipt := n.store.receipts[found.value];
      if w.sequence == receipt.forward {
        DeliveredAck(n.store, found.value, w.head, w.sequence, s.posted);
        ReplyKeeps(n.id, n.store, s.p.store, s.out, s.posted, s.parrived, ForwardAck(w.head, receipt.target, w.sequence));
        SameMemory(n, s.p.store, receipt.target);
      } else if MayDeliver(n, receipt, w.sequence, w.payload) {
        DeliverKeeps(s, w, fate, found.value);
      }
    }
  }

  lemma SameMemory(n: Node, peer: Store, imported: nat)
    requires MemoryOk(n, peer)
    ensures MemoryOk(n.(m := n.m.(imported := imported)), peer)
  {
  }

  lemma DeliverKeeps(s: System, w: Wire, fate: Fate, index: nat)
    requires Inv(s) && w in s.pout && w.Forward? && !Halted(s.n) && !s.n.m.source && s.n.m.allow
    requires FindReceipt(s.n.store.receipts, w.head) == Some(index) && w.target == s.n.store.receipts[index].target
    requires w.sequence != s.n.store.receipts[index].forward
    requires MayDeliver(s.n, s.n.store.receipts[index], w.sequence, w.payload)
    ensures Inv(Step(s, Hears(w, fate)))
  {
    hide StoreOk, FencesOk, ReceiptsOk, DeparturesOk, Transfer, DeliveredStore, Grows, MemoryOk, MessageOk, Logged, IsReceiptFor;
    var n := s.n;
    var after := DeliveredStore(n.store, index, w.payload);
    StoppedMemory(n.(recovery := true), s.p.store);
    StoppedMemory(n.(store := after, recovery := true), s.p.store);
    assert MessageOk(s.p.store, w, s.pposted);
    DeliverStore(n, s.p.store, index, w.payload);
    DeliverOwnSide(n.store, index, w.payload, s.p.store, s.out, s.posted, s.parrived);
    DeliverPeerSide(n.store, index, s.p.store, w, s.pposted, s.arrived);
    PeerDepartures(s.p.store, n.store, after, s.pposted);
    PeerMemory(s.p, n.store, after);
    DeliveredReceipt(n.store, index, w.payload, w.head);
    DeliveredAck(after, index, w.head, w.sequence, s.posted);
    ReplyKeeps(n.id, after, s.p.store, s.out, s.posted, s.parrived, ForwardAck(w.head, w.target, w.sequence));
  }

  lemma DeliveredReceipt(s: Store, index: nat, payload: Bytes, head: Head)
    requires index < |s.receipts| && s.receipts[index].target in s.components && IsReceiptFor(s.receipts[index], head)
    ensures var after := DeliveredStore(s, index, payload);
            && |after.receipts| == |s.receipts| && IsReceiptFor(after.receipts[index], head)
            && after.receipts[index].target == s.receipts[index].target
            && after.receipts[index].forward == s.receipts[index].forward + 1
  {
  }

  // ---- Every run ------------------------------------------------------------------------------------

  lemma HearKeeps(s: System, w: Wire, fate: Fate)
    requires Inv(s)
    ensures Inv(Step(s, Hears(w, fate)))
  {
    hide StoresOk, MemoryOk, Transfer, Deliver, HearAck, HearForwardAck;
    if w in s.pout {
      if w.Ack? {
        HearAckKeeps(s, w, fate);
      } else if w.ForwardAck? {
        HearForwardAckKeeps(s, w, fate);
      } else if !Halted(s.n) && !s.n.m.source && s.n.m.allow {
        if w.Forward? {
          HearForwardKeeps(s, w, fate);
        } else if FindReceipt(s.n.store.receipts, w.head).Some? {
          HearKnownKeeps(s, w, fate);
        } else if w.Ends? {
          HearEndKeeps(s, w, fate);
        } else {
          HearTransferKeeps(s, w, fate);
        }
      }
    }
  }

  lemma StepKeeps(s: System, e: Event)
    requires Inv(s)
    ensures Inv(Step(s, e))
  {
    hide Inv, Step;
    match e {
      case Leaves(root, isolated, memory, fate) => LeaveKeeps(s, root, isolated, memory, fate);
      case Resumes(root, memory) => ResumeKeeps(s, root, memory);
      case Sends => SendKeeps(s);
      case Hears(w, fate) => HearKeeps(s, w, fate);
      case Posting(payload, fate) => PostKeeps(s, payload, fate);
      case Attaches(root) => AttachKeeps(s, root);
      case Restarts(allow) => RestartKeeps(s, allow);
      case Spawns(c, fate) => SpawnKeeps(s, c, fate);
      case Runs(root, c, fate) => RunKeeps(s, root, c, fate);
    }
  }

  /** An event at this node or at the other one. */
  datatype Move = Move(here: bool, event: Event)

  function Moved(s: System, move: Move): System {
    if move.here then Step(s, move.event) else Swapped(Step(Swapped(s), move.event))
  }

  function Run(s: System, moves: seq<Move>): System
    decreases |moves|
  {
    if moves == [] then s else Moved(Run(s, moves[..|moves| - 1]), moves[|moves| - 1])
  }

  const EMPTY_STORE := Store([], 1, map[], map[], [], map[])

  function Fresh(allow: bool, peerAllow: bool): System {
    System(Node(0, EMPTY_STORE, false, Opened(allow)), Node(1, EMPTY_STORE, false, Opened(peerAllow)), {}, {},
           map[], map[], map[], map[])
  }

  lemma FreshIsSafe(allow: bool, peerAllow: bool)
    ensures Inv(Fresh(allow, peerAllow))
  {
  }

  lemma MoveKeeps(s: System, move: Move)
    requires Inv(s)
    ensures Inv(Moved(s, move))
  {
    hide Step, StoresOk, MemoryOk;
    if move.here {
      StepKeeps(s, move.event);
    } else {
      StepKeeps(Swapped(s), move.event);
    }
  }

  /** Every state any run can reach satisfies the invariant. */
  lemma {:induction false} EveryRunIsSafe(s: System, moves: seq<Move>)
    requires Inv(s)
    ensures Inv(Run(s, moves))
    decreases |moves|
  {
    hide Inv, Moved;
    if moves != [] {
      EveryRunIsSafe(s, moves[..|moves| - 1]);
      MoveKeeps(Run(s, moves[..|moves| - 1]), moves[|moves| - 1]);
    }
  }
}
