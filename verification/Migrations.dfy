/**
 * Component migration between two nodes: what each node keeps on disk and in memory, and
 * what every step of the protocol does to it.
 *
 * A durable batch is a single step with one of four fates. Digests are injective: a bundle's
 * digest is its byte sequence. A node is numbered 0 or 1 and talks to the other one.
 */
module Migrations {
  import opened ObjectIds

  type Bytes = seq<bv8>

  const COMPONENT_MAX: nat := 4
  const CAP_SLOTS: nat := 16
  const CHUNK_BYTES: nat := 928
  const FORWARD_MAX: nat := 256
  const MAILBOX_BYTES: nat := 4096
  const BUNDLE_MAX: nat := 1048576
  const NOBODY: nat := 0

  // ---- Components and bundles ---------------------------------------------------------------

  datatype Cap = NoCap | Cap(subject: nat, rights: nat)

  datatype Component = Component(code: Bytes, caps: seq<Cap>, mailbox: seq<Bytes>, memory: Bytes)

  /** Letters are framed by eight bytes each. */
  function MailboxUsed(mailbox: seq<Bytes>): nat {
    if mailbox == [] then 0 else MailboxUsed(mailbox[..|mailbox| - 1]) + 8 + |mailbox[|mailbox| - 1]|
  }

  /** Only READ (1) and SEND (4) capabilities on the component itself may cross. */
  predicate SelfOnly(caps: seq<Cap>, root: nat) {
    forall i :: 0 <= i < |caps| ==> caps[i].NoCap? || (caps[i].subject == root && caps[i].rights in {1, 4, 5})
  }

  function Rerooted(caps: seq<Cap>, root: nat): seq<Cap> {
    seq(|caps|, i requires 0 <= i < |caps| => if caps[i].NoCap? then NoCap else Cap(root, caps[i].rights))
  }

  /** One component is another under a root of its own: every occupied slot names that root, with the same rights. */
  ghost predicate Reborn(c: Component, original: Component, root: nat) {
    && c.code == original.code && c.mailbox == original.mailbox && c.memory == original.memory
    && |c.caps| == |original.caps|
    && forall i :: 0 <= i < |c.caps| ==>
         if original.caps[i].NoCap? then c.caps[i].NoCap?
         else c.caps[i].Cap? && c.caps[i].subject == root && c.caps[i].rights == original.caps[i].rights
  }

  datatype Bundle = Bundle(from: nat, to: nat, root: nat, generation: nat, body: Component)

  /** One byte of an encoded bundle. */
  datatype Cell = Cell(bundle: Bundle, at: nat)

  function Size(b: Bundle): (size: nat)
    ensures size >= 128
  {
    128 + |b.body.code| + 544 + 64 + MailboxUsed(b.body.mailbox) + |b.body.memory|
  }

  function Encode(b: Bundle): seq<Cell> {
    seq(Size(b), i requires 0 <= i => Cell(b, i))
  }

  /** The bytes are one whole bundle addressed from one node to the other. */
  predicate IsBundle(cells: seq<Cell>, from: nat, to: nat) {
    && cells != [] && cells == Encode(cells[0].bundle)
    && cells[0].bundle.from == from && cells[0].bundle.to == to
    && SelfOnly(cells[0].bundle.body.caps, cells[0].bundle.root)
  }

  // ---- Durable and volatile state -----------------------------------------------------------

  /** The fence: the component left, towards `target` once that is known. */
  datatype Record = Record(root: nat, generation: nat, digest: seq<Cell>, target: nat, forward: nat)

  /** The receipt: `target` is the import of the peer's `source`. */
  datatype Receipt = Receipt(source: nat, generation: nat, digest: seq<Cell>, target: nat, forward: nat)

  datatype Head = Head(root: nat, generation: nat, digest: seq<Cell>, total: nat)

  datatype Letter = Letter(head: Head, target: nat, sequence: nat, payload: Bytes)

  datatype Store = Store(registry: seq<nat>, next: nat, components: map<nat, Component>, fences: map<nat, Record>,
                         receipts: seq<Receipt>, outboxes: map<nat, Letter>)

  /** The in-memory migration object; a target's `bundle` holds the bytes received so far. */
  datatype Endpoint = Endpoint(source: bool, phase: nat, record: Record, bundle: Option<seq<Cell>>, total: nat,
                               received: nat, allow: bool, halted: bool, imported: nat, attached: nat)

  datatype Node = Node(id: nat, store: Store, recovery: bool, m: Endpoint)

  datatype Fate = Commits | Refused | Vanishes | Lands

  datatype Wire =
    | Begins(head: Head)
    | Chunk(head: Head, offset: nat, data: seq<Cell>)
    | Ends(head: Head)
    | Forward(head: Head, target: nat, sequence: nat, payload: Bytes)
    | Ack(head: Head, offset: nat, target: nat)
    | ForwardAck(head: Head, target: nat, sequence: nat)

  const BLANK_RECORD := Record(NOBODY, 0, [], NOBODY, 0)

  function Opened(allow: bool): Endpoint {
    Endpoint(false, 0, BLANK_RECORD, None, 0, 0, allow, false, NOBODY, NOBODY)
  }

  predicate Halted(n: Node) {
    n.m.halted || n.recovery
  }

  /** Registered, not fenced, and the store is in service. */
  predicate Runnable(n: Node, root: nat) {
    !n.recovery && root in n.store.registry && root in n.store.components && root !in n.store.fences
  }

  function Quarantined(n: Node): Node {
    n.(recovery := true)
  }

  /** A batch that failed uncertainly may or may not have reached the disk; the node stops. */
  function Uncertain(n: Node, s: Store, fate: Fate): Node {
    if fate.Lands? then Quarantined(n.(store := s)) else Quarantined(n)
  }

  function Other(id: nat): nat {
    if id == 0 then 1 else 0
  }

  function HeadOf(m: Endpoint): Head {
    Head(m.record.root, m.record.generation, m.record.digest, m.total)
  }

  predicate Matching(m: Endpoint, head: Head) {
    HeadOf(m) == head
  }

  function Without(registry: seq<nat>, root: nat): seq<nat>
    decreases |registry|
  {
    if registry == [] then []
    else if registry[0] == root then registry[1..]
    else [registry[0]] + Without(registry[1..], root)
  }

  // ---- Leaving --------------------------------------------------------------------------------

  function PriorGeneration(receipts: seq<Receipt>, root: nat): nat
    decreases |receipts|
  {
    if receipts == [] then 0
    else if receipts[0].target == root then receipts[0].generation
    else PriorGeneration(receipts[1..], root)
  }

  predicate MayLeave(n: Node, root: nat) {
    && n.m.bundle.None? && root != NOBODY
    && root in n.store.components && root !in n.store.fences && root in n.store.registry
    && SelfOnly(n.store.components[root].caps, root)
  }

  function BundleFor(id: nat, s: Store, root: nat, generation: nat): Bundle
    requires root in s.components
  {
    Bundle(id, Other(id), root, generation, s.components[root])
  }

  /**
   * Fences a component in one batch with its removal from the registry. An attempt that
   * fails after its checks has already overwritten the record in memory.
   */
  function Leave(n: Node, root: nat, isolated: bool, memory: bool, fate: Fate): Node {
    if Halted(n) || !isolated || !MayLeave(n, root) then n
    else
      var generation := PriorGeneration(n.store.receipts, root) + 1;
      if generation > UINT64_MAX then n.(m := n.m.(record := Record(root, 1, [], NOBODY, 0)))
      else
        var b := BundleFor(n.id, n.store, root, generation);
        if Size(b) > BUNDLE_MAX || !memory then n.(m := n.m.(record := Record(root, generation, [], NOBODY, 0)))
        else
          var record := Record(root, generation, Encode(b), NOBODY, 0);
          var s := n.store.(registry := Without(n.store.registry, root), fences := n.store.fences[root := record]);
          match fate
          case Commits =>
            n.(store := s,
               m := n.m.(record := record, bundle := Some(record.digest), total := Size(b), received := 0, source := true,
                         phase := 0, attached := if n.m.attached == root then NOBODY else n.m.attached))
          case Refused =>
            n.(m := n.m.(record := record, bundle := None, total := Size(b), received := 0))
          case _ => Uncertain(n, s, fate)
  }

  /** Takes a fenced migration up again, rebuilding its bundle and checking it against the digest. */
  function Resume(n: Node, root: nat, memory: bool): Node {
    if Halted(n) || n.m.bundle.Some? || root == NOBODY || root !in n.store.fences then n
    else
      var record := n.store.fences[root];
      if (record.target == NOBODY && record.forward != 0) || record.root != root then n
      else if !memory || root !in n.store.components || Size(BundleFor(n.id, n.store, root, record.generation)) > BUNDLE_MAX
              || !SelfOnly(n.store.components[root].caps, root)
              || Encode(BundleFor(n.id, n.store, root, record.generation)) != record.digest then n.(m := n.m.(record := record))
      else n.(m := n.m.(record := record, bundle := Some(record.digest), total := |record.digest|, received := 0,
                        source := true, phase := if record.target == NOBODY then 0 else 3))
  }

  /** The stored outbox is the one this endpoint last posted. */
  predicate OutboxOk(n: Node) {
    && n.m.record.root in n.store.outboxes
    && var letter := n.store.outboxes[n.m.record.root];
       && letter.target != NOBODY && letter.sequence != 0
       && Matching(n.m, letter.head) && letter.target == n.m.record.target && letter.sequence == n.m.record.forward
  }

  predicate OutboxEmpty(n: Node) {
    n.m.record.root !in n.store.outboxes
  }

  function NextPacket(n: Node): Option<Wire> {
    if Halted(n) || !n.m.source then None
    else if n.m.phase == 3 then
      if OutboxOk(n) then
        var letter := n.store.outboxes[n.m.record.root];
        Some(Forward(letter.head, letter.target, letter.sequence, letter.payload))
      else None
    else if n.m.phase == 0 then Some(Begins(HeadOf(n.m)))
    else if n.m.received == n.m.total then Some(Ends(HeadOf(n.m)))
    else if n.m.bundle.None? || n.m.received > |n.m.bundle.value| then None
    else
      var end := if n.m.received + CHUNK_BYTES <= |n.m.bundle.value| then n.m.received + CHUNK_BYTES else |n.m.bundle.value|;
      Some(Chunk(HeadOf(n.m), n.m.received, n.m.bundle.value[n.m.received..end]))
  }

  /** Posts one letter for the departed component; the next waits for its acknowledgement. */
  function Post(n: Node, payload: Bytes, fate: Fate): Node {
    if Halted(n) || !n.m.source || n.m.phase != 3 || |payload| > FORWARD_MAX || n.m.record.forward >= UINT64_MAX
       || !OutboxEmpty(n) then n
    else
      var record := n.m.record.(forward := n.m.record.forward + 1);
      var letter := Letter(HeadOf(n.m), record.target, record.forward, payload);
      var s := n.store.(fences := n.store.fences[record.root := record], outboxes := n.store.outboxes[record.root := letter]);
      match fate
      case Commits => n.(store := s, m := n.m.(record := record))
      case Refused => n
      case _ => Uncertain(n, s, fate)
  }

  /** Whether a post is accepted and durable. */
  predicate Posts(n: Node, payload: Bytes) {
    !Halted(n) && n.m.source && n.m.phase == 3 && |payload| <= FORWARD_MAX && n.m.record.forward < UINT64_MAX && OutboxEmpty(n)
  }

  // ---- The source hears an acknowledgement ----------------------------------------------------

  function HearForwardAck(n: Node, head: Head, target: nat, sequence: nat, fate: Fate): Node {
    if target != n.m.record.target || sequence != n.m.record.forward || OutboxEmpty(n) || !OutboxOk(n) then n
    else
      var s := n.store.(outboxes := n.store.outboxes - {n.m.record.root});
      match fate
      case Commits => n.(store := s)
      case Refused => n
      case _ => Uncertain(n, s, fate)
  }

  function Arrived(n: Node, record: Record): Node {
    n.(m := n.m.(record := record, phase := 3, bundle := None, received := 0))
  }

  function HearAck(n: Node, offset: nat, target: nat, fate: Fate): Node {
    if target != NOBODY then
      if n.m.record.target != NOBODY && n.m.record.target != target then n
      else
        var record := n.m.record.(target := target);
        if n.m.record.target != NOBODY then Arrived(n, record)
        else
          var s := n.store.(fences := n.store.fences[record.root := record]);
          match fate
          case Commits => Arrived(n.(store := s), record)
          case Refused => n
          case _ => Uncertain(n, s, fate)
    else if n.m.phase == 3 || offset < n.m.received || (n.m.phase == 1 && offset > n.m.received + CHUNK_BYTES) then n
    else n.(m := n.m.(phase := 1, received := offset))
  }

  // ---- The target -------------------------------------------------------------------------------

  predicate IsReceiptFor(r: Receipt, head: Head) {
    r.source == head.root && r.generation == head.generation && r.digest == head.digest
  }

  function FindReceipt(receipts: seq<Receipt>, head: Head): (index: Option<nat>)
    ensures index.Some? ==> index.value < |receipts| && IsReceiptFor(receipts[index.value], head)
    ensures index.None? ==> forall i :: 0 <= i < |receipts| ==> !IsReceiptFor(receipts[i], head)
    decreases |receipts|
  {
    if receipts == [] then None
    else if IsReceiptFor(receipts[0], head) then Some(0)
    else
      var rest := FindReceipt(receipts[1..], head);
      if rest.None? then None else Some(rest.value + 1)
  }

  predicate MayImport(n: Node, head: Head) {
    && n.m.bundle.Some? && n.m.bundle.value == head.digest
    && IsBundle(head.digest, Other(n.id), n.id)
    && head.digest[0].bundle.root == head.root && head.digest[0].bundle.generation == head.generation
    && |n.store.registry| < COMPONENT_MAX && n.store.next + 4 <= UINT64_MAX
    && n.store.next + 3 !in n.store.components && n.store.next + 3 !in n.store.fences
    && forall i :: 0 <= i < |n.store.receipts| ==> n.store.receipts[i].target != n.store.next + 3
  }

  function ImportedStore(n: Node, head: Head): Store
    requires head.digest != []
  {
    var root := n.store.next + 3;
    var body := head.digest[0].bundle.body;
    n.store.(registry := n.store.registry + [root], next := n.store.next + 4,
             components := n.store.components[root := body.(caps := Rerooted(body.caps, root))],
             receipts := n.store.receipts + [Receipt(head.root, head.generation, head.digest, root, 0)])
  }

  /** Import and receipt in one batch. */
  function Import(n: Node, head: Head, fate: Fate): (Node, Option<Wire>) {
    if !MayImport(n, head) then (n, None)
    else
      var s := ImportedStore(n, head);
      var root := n.store.next + 3;
      match fate
      case Commits =>
        (n.(store := s, m := n.m.(imported := root, record := n.m.record.(target := root), bundle := None, received := 0)),
         Some(Ack(head, head.total, root)))
      case Refused => (n, None)
      case _ => (Uncertain(n, s, fate), None)
  }

  predicate MayDeliver(n: Node, receipt: Receipt, sequence: nat, payload: Bytes) {
    && receipt.forward < UINT64_MAX && sequence == receipt.forward + 1
    && n.m.attached == receipt.target && receipt.target in n.store.components
    && MailboxUsed(n.store.components[receipt.target].mailbox) + 8 + |payload| <= MAILBOX_BYTES
  }

  function DeliveredStore(s: Store, index: nat, payload: Bytes): Store
    requires index < |s.receipts| && s.receipts[index].target in s.components
  {
    var receipt := s.receipts[index];
    var c := s.components[receipt.target];
    s.(components := s.components[receipt.target := c.(mailbox := c.mailbox + [payload])],
       receipts := s.receipts[index := receipt.(forward := receipt.forward + 1)])
  }

  /** Delivery and its sequence number in one batch; the last letter is only acknowledged again. */
  function Deliver(n: Node, index: nat, w: Wire, fate: Fate): (Node, Option<Wire>)
    requires index < |n.store.receipts| && w.Forward?
  {
    var receipt := n.store.receipts[index];
    var ack := Some(ForwardAck(w.head, receipt.target, w.sequence));
    if w.target != receipt.target then (n, None)
    else if w.sequence == receipt.forward then (n.(m := n.m.(imported := receipt.target)), ack)
    else if !MayDeliver(n, receipt, w.sequence, w.payload) then (n, None)
    else
      var s := DeliveredStore(n.store, index, w.payload);
      match fate
      case Commits => (n.(store := s, m := n.m.(imported := receipt.target)), ack)
      case Refused => (n, None)
      case _ => (Uncertain(n, s, fate), None)
  }

  /** A new or repeated transfer message for a bundle that has not been imported yet. */
  function Transfer(n: Node, w: Wire, fate: Fate): (Node, Option<Wire>)
    requires w.Begins? || w.Chunk? || w.Ends?
  {
    if w.Begins? && n.m.bundle.None? then
      var m := n.m.(bundle := Some([]), total := w.head.total, received := 0,
                    record := Record(w.head.root, w.head.generation, w.head.digest, NOBODY, 0));
      (n.(m := m), Some(Ack(w.head, 0, NOBODY)))
    else if n.m.bundle.None? || !Matching(n.m, w.head) then (n, None)
    else if w.Begins? then (n, Some(Ack(w.head, n.m.received, NOBODY)))
    else if w.Ends? then
      if n.m.received != n.m.total then (n, None) else Import(n, w.head, fate)
    else if w.offset == n.m.received then
      var m := n.m.(bundle := Some(n.m.bundle.value + w.data), received := n.m.received + |w.data|);
      (n.(m := m), Some(Ack(w.head, m.received, NOBODY)))
    else if w.offset > n.m.received || |w.data| > n.m.received - w.offset || w.offset + |w.data| > |n.m.bundle.value|
            || n.m.bundle.value[w.offset..w.offset + |w.data|] != w.data then (n, None)
    else (n, Some(Ack(w.head, n.m.received, NOBODY)))
  }

  /** One incoming message: the new node state and the reply, if any. */
  function Receive(n: Node, w: Wire, fate: Fate): (Node, Option<Wire>) {
    if Halted(n) then (n, None)
    else if w.Ack? || w.ForwardAck? then
      if !n.m.source || !Matching(n.m, w.head) then (n, None)
      else if w.ForwardAck? then (HearForwardAck(n, w.head, w.target, w.sequence, fate), None)
      else (HearAck(n, w.offset, w.target, fate), None)
    else if n.m.source || !n.m.allow then (n, None)
    else
      var found := FindReceipt(n.store.receipts, w.head);
      if found.Some? then
        if w.Forward? then Deliver(n, found.value, w, fate)
        else (n.(m := n.m.(imported := n.store.receipts[found.value].target)),
              Some(Ack(w.head, w.head.total, n.store.receipts[found.value].target)))
      else if w.Forward? then (n, None)
      else Transfer(n, w, fate)
  }

  /** The imported component was resumed and may now be handed forwarded letters. */
  function Attach(n: Node, root: nat): Node {
    if Halted(n) || n.m.source || !Runnable(n, root)
       || !(exists i :: 0 <= i < |n.store.receipts| && n.store.receipts[i].target == root) then n
    else n.(m := n.m.(imported := root, attached := root))
  }

  /** Power loss or remount: only the store survives. */
  function Restart(n: Node, allow: bool): Node {
    n.(recovery := false, m := Opened(allow))
  }
}
