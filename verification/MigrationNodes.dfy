/** The migration endpoint as the kernel runs it: one mutable object, proved step by step against the protocol. */
module MigrationNodes {
  import opened ObjectIds
  import opened Migrations

  // ---- Scans -------------------------------------------------------------------------------

  lemma {:induction false} WithoutAt(registry: seq<nat>, index: nat)
    requires index < |registry| && forall k :: 0 <= k < index ==> registry[k] != registry[index]
    ensures Without(registry, registry[index]) == registry[..index] + registry[index + 1..]
    decreases index
  {
    if index > 0 {
      WithoutAt(registry[1..], index - 1);
      assert registry[1..][..index - 1] == registry[1..index] && registry[1..][index..] == registry[index + 1..];
      assert registry[..index] == [registry[0]] + registry[1..index];
    }
  }

  /** Finds the root in the registry and closes the gap it leaves. */
  method Unlisted(registry: seq<nat>, root: nat) returns (found: bool, rest: seq<nat>)
    ensures found <==> root in registry
    ensures found ==> rest == Without(registry, root)
    ensures !found ==> rest == registry
  {
    var index := 0;
    while index < |registry| && registry[index] != root
      invariant 0 <= index <= |registry|
      invariant forall k :: 0 <= k < index ==> registry[k] != root
    {
      index := index + 1;
    }
    if index == |registry| {
      return false, registry;
    }
    WithoutAt(registry, index);
    found, rest := true, registry[..index];
    var i := index;
    while i + 1 < |registry|
      invariant index <= i && i + 1 <= |registry|
      invariant rest == registry[..index] + registry[index + 1..i + 1]
    {
      rest := rest + [registry[i + 1]];
      i := i + 1;
    }
  }

  lemma {:induction false} PriorAt(receipts: seq<Receipt>, root: nat, index: nat)
    requires index <= |receipts| && forall k :: 0 <= k < index ==> receipts[k].target != root
    ensures PriorGeneration(receipts, root) == PriorGeneration(receipts[index..], root)
    decreases index
  {
    if index > 0 {
      PriorAt(receipts[1..], root, index - 1);
      assert receipts[1..][index - 1..] == receipts[index..];
    } else {
      assert receipts[0..] == receipts;
    }
  }

  method PriorOf(receipts: seq<Receipt>, root: nat) returns (generation: nat)
    ensures generation == PriorGeneration(receipts, root)
  {
    var index := 0;
    while index < |receipts|
      invariant 0 <= index <= |receipts|
      invariant forall k :: 0 <= k < index ==> receipts[k].target != root
    {
      PriorAt(receipts, root, index);
      if receipts[index].target == root {
        return receipts[index].generation;
      }
      index := index + 1;
    }
    PriorAt(receipts, root, index);
    return 0;
  }

  method CapsAllowed(caps: seq<Cap>, root: nat) returns (ok: bool)
    ensures ok == SelfOnly(caps, root)
  {
    var slot := 0;
    while slot < |caps|
      invariant 0 <= slot <= |caps|
      invariant SelfOnly(caps[..slot], root)
    {
      if caps[slot].Cap? && (caps[slot].subject != root || caps[slot].rights !in {1, 4, 5}) {
        return false;
      }
      slot := slot + 1;
    }
    assert caps[..slot] == caps;
    return true;
  }

  method RerootCaps(caps: seq<Cap>, root: nat) returns (after: seq<Cap>)
    ensures after == Rerooted(caps, root) && |after| == |caps|
    ensures forall c: Component :: c.caps == caps ==> Reborn(c.(caps := after), c, root)
  {
    after := caps;
    var slot := 0;
    while slot < |caps|
      invariant 0 <= slot <= |caps| == |after|
      invariant forall k :: 0 <= k < slot ==> after[k] == Rerooted(caps, root)[k]
      invariant forall k :: slot <= k < |caps| ==> after[k] == caps[k]
    {
      if caps[slot].Cap? {
        after := after[slot := Cap(root, caps[slot].rights)];
      }
      slot := slot + 1;
    }
    assert forall k :: 0 <= k < |caps| ==> after[k] == Rerooted(caps, root)[k];
  }

  lemma {:induction false} FindAt(receipts: seq<Receipt>, head: Head, index: nat)
    requires index <= |receipts| && forall k :: 0 <= k < index ==> !IsReceiptFor(receipts[k], head)
    ensures FindReceipt(receipts, head)
            == if FindReceipt(receipts[index..], head).None? then None
               else Some(index + FindReceipt(receipts[index..], head).value)
    decreases index
  {
    if index > 0 {
      FindAt(receipts[1..], head, index - 1);
      assert receipts[1..][index - 1..] == receipts[index..];
    } else {
      assert receipts[0..] == receipts;
    }
  }

  method SearchReceipts(receipts: seq<Receipt>, head: Head) returns (index: Option<nat>)
    ensures index == FindReceipt(receipts, head)
  {
    var i := 0;
    while i < |receipts|
      invariant 0 <= i <= |receipts|
      invariant forall k :: 0 <= k < i ==> !IsReceiptFor(receipts[k], head)
    {
      FindAt(receipts, head, i);
      if IsReceiptFor(receipts[i], head) {
        return Some(i);
      }
      i := i + 1;
    }
    FindAt(receipts, head, i);
    return None;
  }

  method IdsFresh(s: Store, root: nat) returns (ok: bool)
    ensures ok == (root !in s.components && root !in s.fences
                   && forall i :: 0 <= i < |s.receipts| ==> s.receipts[i].target != root)
  {
    if root in s.components || root in s.fences {
      return false;
    }
    var i := 0;
    while i < |s.receipts|
      invariant 0 <= i <= |s.receipts|
      invariant forall k :: 0 <= k < i ==> s.receipts[k].target != root
    {
      if s.receipts[i].target == root {
        return false;
      }
      i := i + 1;
    }
    return true;
  }

  /** The same node; what a stopped one has in memory does not matter until it restarts. */
  predicate Same(a: Node, b: Node) {
    a.id == b.id && a.store == b.store && a.recovery == b.recovery && (!a.recovery ==> a.m == b.m)
  }

  // ---- The endpoint --------------------------------------------------------------------------

  class MigrationNode {
    const id: nat
    var store: Store
    var recovery: bool
    var source: bool
    var phase: nat
    var record: Record
    var bundle: Option<seq<Cell>>
    var total: nat
    var received: nat
    var allow: bool
    var halted: bool
    var imported: nat
    var attached: nat

    ghost function Memory(): Endpoint
      reads this
    {
      Endpoint(source, phase, record, bundle, total, received, allow, halted, imported, attached)
    }

    ghost function State(): Node
      reads this
    {
      Node(id, store, recovery, Memory())
    }

    constructor (id: nat, store: Store, allow: bool)
      ensures State() == Restart(Node(id, store, true, Opened(allow)), allow)
    {
      this.id, this.store, this.recovery := id, store, false;
      source, phase, record, bundle := false, 0, BLANK_RECORD, None;
      total, received, halted, imported, attached := 0, 0, false, NOBODY, NOBODY;
      this.allow := allow;
    }

    /** One durable batch: done, refused, or the node stops not knowing which. */
    method Commit(s: Store, fate: Fate) returns (status: int)
      modifies this`store, this`recovery
      ensures fate.Commits? ==> status == 1 && store == s && recovery == old(recovery)
      ensures fate.Refused? ==> status == 0 && store == old(store) && recovery == old(recovery)
      ensures !fate.Commits? && !fate.Refused? ==> status == -1 && State() == Uncertain(old(State()), s, fate)
    {
      match fate {
        case Commits =>
          store := s;
          return 1;
        case Refused =>
          return 0;
        case Vanishes =>
          recovery := true;
          return -1;
        case Lands =>
          store, recovery := s, true;
          return -1;
      }
    }

    /** Whether the component may leave, and the registry without it. */
    method Departing(root: nat, isolated: bool) returns (ok: bool, rest: seq<nat>)
      ensures ok == (!Halted(State()) && isolated && MayLeave(State(), root))
      ensures ok ==> rest == Without(store.registry, root)
    {
      hide SelfOnly, Without;
      rest := [];
      if halted || recovery || !isolated || bundle.Some? || root == NOBODY || root !in store.components || root in store.fences {
        return false, rest;
      }
      var caps := CapsAllowed(store.components[root].caps, root);
      var listed;
      listed, rest := Unlisted(store.registry, root);
      return caps && listed, rest;
    }

    /** Fence and registry in one batch; on success this endpoint is the source. */
    method Fence(r: Record, rest: seq<nat>, fate: Fate) returns (status: int)
      requires !recovery
      modifies this
      ensures var s := old(store).(registry := rest, fences := old(store).fences[r.root := r]);
              var memory := old(Memory()).(record := r, total := |r.digest|, received := 0);
              match fate
              case Commits =>
                State() == Node(id, s, false, memory.(bundle := Some(r.digest), source := true, phase := 0,
                                                      attached := if old(attached) == r.root then NOBODY else old(attached)))
              case Refused => State() == Node(id, old(store), false, memory.(bundle := None))
              case _ => Same(State(), Uncertain(old(State()), s, fate))
      ensures (status == 1 <==> fate.Commits?) && (status == 0 <==> fate.Refused?)
    {
      record, bundle, total, received := r, Some(r.digest), |r.digest|, 0;
      status := Commit(store.(registry := rest, fences := store.fences[r.root := r]), fate);
      if status == 0 {
        bundle, received := None, 0;
      } else if status == 1 {
        source, phase := true, 0;
        if attached == r.root {
          attached := NOBODY;
        }
      }
    }

    /** Fences a component and starts sending it. */
    method Begin(root: nat, isolated: bool, memory: bool, fate: Fate) returns (status: int)
      modifies this
      ensures Same(State(), Leave(old(State()), root, isolated, memory, fate))
      ensures status == 1 <==> old(bundle).None? && bundle.Some? && !recovery
    {
      hide SelfOnly, Encode, Size, Without, PriorGeneration;
      var ok, rest := Departing(root, isolated);
      if !ok {
        return 0;
      }
      var prior := PriorOf(store.receipts, root);
      if prior >= UINT64_MAX {
        record := Record(root, 1, [], NOBODY, 0);
        return 0;
      }
      var b := BundleFor(id, store, root, prior + 1);
      if Size(b) > BUNDLE_MAX || !memory {
        record := Record(root, prior + 1, [], NOBODY, 0);
        return 0;
      }
      EncodeLength(b);
      status := Fence(Record(root, prior + 1, Encode(b), NOBODY, 0), rest, fate);
    }

    /** Takes a fenced migration up again after a restart. */
    method ResumeSource(root: nat, memory: bool) returns (ok: bool)
      modifies this
      ensures Same(State(), Resume(old(State()), root, memory))
      ensures ok ==> source && (phase == 0 || phase == 3) && record.root == root
      ensures ok <==> old(bundle).None? && bundle.Some?
    {
      hide SelfOnly, Encode, Size;
      if halted || recovery || bundle.Some? || root == NOBODY || root !in store.fences {
        return false;
      }
      var r := store.fences[root];
      if (r.target == NOBODY && r.forward != 0) || r.root != root {
        return false;
      }
      record := r;
      if !memory || root !in store.components {
        return false;
      }
      var b := BundleFor(id, store, root, r.generation);
      var caps := CapsAllowed(store.components[root].caps, root);
      if Size(b) > BUNDLE_MAX || !caps || Encode(b) != r.digest {
        return false;
      }
      bundle, total, received := Some(r.digest), |r.digest|, 0;
      source, phase := true, if r.target == NOBODY then 0 else 3;
      return true;
    }

    /** What the source has to say next. */
    method Packet() returns (w: Option<Wire>)
      ensures w == NextPacket(State())
    {
      if halted || recovery || !source {
        return None;
      }
      var head := Head(record.root, record.generation, record.digest, total);
      if phase == 3 {
        if record.root !in store.outboxes {
          return None;
        }
        var letter := store.outboxes[record.root];
        if letter.target == NOBODY || letter.sequence == 0 || letter.head != head
           || letter.target != record.target || letter.sequence != record.forward {
          return None;
        }
        return Some(Forward(letter.head, letter.target, letter.sequence, letter.payload));
      }
      if phase == 0 {
        return Some(Begins(head));
      }
      if received == total {
        return Some(Ends(head));
      }
      if bundle.None? || received > |bundle.value| {
        return None;
      }
      var end := if received + CHUNK_BYTES <= |bundle.value| then received + CHUNK_BYTES else |bundle.value|;
      return Some(Chunk(head, received, bundle.value[received..end]));
    }

    method PostLetter(payload: Bytes, fate: Fate) returns (status: int)
      modifies this
      ensures Same(State(), Post(old(State()), payload, fate))
      ensures status == 1 <==> old(Posts(State(), payload)) && fate.Commits?
    {
      if halted || recovery || !source || phase != 3 || |payload| > FORWARD_MAX || record.forward >= UINT64_MAX
         || record.root in store.outboxes {
        return 0;
      }
      var r := record.(forward := record.forward + 1);
      var letter := Letter(Head(r.root, r.generation, r.digest, total), r.target, r.forward, payload);
      status := Commit(store.(fences := store.fences[r.root := r], outboxes := store.outboxes[r.root := letter]), fate);
      if status == 1 {
        record := r;
      }
    }

    method AttachTarget(root: nat) returns (ok: bool)
      modifies this
      ensures State() == Attach(old(State()), root)
      ensures ok <==>
              && !halted && !recovery && !source && root in store.registry && root in store.components && root !in store.fences
              && exists i :: 0 <= i < |store.receipts| && store.receipts[i].target == root
    {
      if halted || recovery || source || root !in store.registry || root !in store.components || root in store.fences {
        return false;
      }
      var i := 0;
      while i < |store.receipts|
        invariant 0 <= i <= |store.receipts|
        invariant State() == old(State())
        invariant forall k :: 0 <= k < i ==> store.receipts[k].target != root
      {
        if store.receipts[i].target == root {
          imported, attached := root, root;
          return true;
        }
        i := i + 1;
      }
      return false;
    }

    method HearAcknowledgement(w: Wire, fate: Fate)
      requires (w.Ack? || w.ForwardAck?) && !halted && !recovery && source
      modifies this
      ensures Same(State(), Receive(old(State()), w, fate).0)
    {
      hide Transfer, Deliver, FindReceipt, Encode, Size, Import;
      if Head(record.root, record.generation, record.digest, total) != w.head {
        return;
      }
      if w.ForwardAck? {
        if w.target != record.target || w.sequence != record.forward || record.root !in store.outboxes {
          return;
        }
        var letter := store.outboxes[record.root];
        if letter.target == NOBODY || letter.sequence == 0 || letter.head != w.head
           || letter.target != record.target || letter.sequence != record.forward {
          return;
        }
        var status := Commit(store.(outboxes := store.outboxes - {record.root}), fate);
      } else if w.target != NOBODY {
        if record.target != NOBODY && record.target != w.target {
          return;
        }
        var r := record.(target := w.target);
        if record.target == NOBODY {
          var status := Commit(store.(fences := store.fences[r.root := r]), fate);
          if status != 1 {
            return;
          }
        }
        record, phase, bundle, received := r, 3, None, 0;
      } else if phase != 3 && w.offset >= received && !(phase == 1 && w.offset > received + CHUNK_BYTES) {
        phase, received := 1, w.offset;
      }
    }

    /** Is this a complete bundle for this node, and is there room for it? */
    method Publishable(head: Head) returns (ok: bool)
      ensures ok <==> MayImport(State(), head)
    {
      hide Encode, SelfOnly;
      if bundle.None? || bundle.value != head.digest || head.digest == [] || head.digest != Encode(head.digest[0].bundle) {
        return false;
      }
      var b := head.digest[0].bundle;
      var caps := CapsAllowed(b.body.caps, b.root);
      if b.from != Other(id) || b.to != id || !caps || b.root != head.root || b.generation != head.generation {
        return false;
      }
      if |store.registry| >= COMPONENT_MAX || store.next + 4 > UINT64_MAX {
        return false;
      }
      ok := IdsFresh(store, store.next + 3);
    }

    /** Publishes a complete bundle, or not at all. */
    method PublishImport(head: Head, fate: Fate) returns (reply: Option<Wire>)
      requires !halted && !recovery
      modifies this
      ensures Same(State(), Import(old(State()), head, fate).0) && reply == Import(old(State()), head, fate).1
      ensures reply.Some? ==>
                && head.digest != [] && old(store).next + 3 in store.components && old(store).next + 3 !in old(store).components
                && Reborn(store.components[old(store).next + 3], head.digest[0].bundle.body, old(store).next + 3)
    {
      hide Encode, SelfOnly, Rerooted, Reborn, MayImport;
      var ok := Publishable(head);
      if !ok {
        return None;
      }
      ImportableParts(State(), head);
      var root := store.next + 3;
      var b := head.digest[0].bundle;
      var own := RerootCaps(b.body.caps, root);
      var status := Commit(store.(registry := store.registry + [root], next := store.next + 4,
                                  components := store.components[root := b.body.(caps := own)],
                                  receipts := store.receipts + [Receipt(head.root, head.generation, head.digest, root, 0)]),
                           fate);
      if status != 1 {
        return None;
      }
      imported, record, bundle, received := root, record.(target := root), None, 0;
      return Some(Ack(head, head.total, root));
    }

    method DeliverLetter(index: nat, w: Wire, fate: Fate) returns (reply: Option<Wire>)
      requires !halted && !recovery && index < |store.receipts| && w.Forward?
      modifies this
      ensures Same(State(), Deliver(old(State()), index, w, fate).0) && reply == Deliver(old(State()), index, w, fate).1
    {
      hide MailboxUsed;
      var receipt := store.receipts[index];
      if w.target != receipt.target {
        return None;
      }
      if w.sequence != receipt.forward {
        if receipt.forward >= UINT64_MAX || w.sequence != receipt.forward + 1 || attached != receipt.target
           || receipt.target !in store.components
           || MailboxUsed(store.components[receipt.target].mailbox) + 8 + |w.payload| > MAILBOX_BYTES {
          return None;
        }
        var c := store.components[receipt.target];
        var status := Commit(store.(components := store.components[receipt.target := c.(mailbox := c.mailbox + [w.payload])],
                                    receipts := store.receipts[index := receipt.(forward := receipt.forward + 1)]), fate);
        if status != 1 {
          return None;
        }
      }
      imported := receipt.target;
      return Some(ForwardAck(w.head, receipt.target, w.sequence));
    }

    method HearTransfer(w: Wire, fate: Fate) returns (reply: Option<Wire>)
      requires !halted && !recovery && (w.Begins? || w.Chunk? || w.Ends?)
      modifies this
      ensures Same(State(), Transfer(old(State()), w, fate).0) && reply == Transfer(old(State()), w, fate).1
    {
      hide Import;
      if w.Begins? && bundle.None? {
        bundle, total, received := Some([]), w.head.total, 0;
        record := Record(w.head.root, w.head.generation, w.head.digest, NOBODY, 0);
        return Some(Ack(w.head, 0, NOBODY));
      }
      if bundle.None? || Head(record.root, record.generation, record.digest, total) != w.head {
        return None;
      }
      if w.Ends? {
        if received != total {
          return None;
        }
        reply := PublishImport(w.head, fate);
        return;
      }
      if w.Chunk? {
        if w.offset == received {
          bundle := Some(bundle.value + w.data);
          received := received + |w.data|;
        } else if w.offset > received || |w.data| > received - w.offset || w.offset + |w.data| > |bundle.value|
                  || bundle.value[w.offset..w.offset + |w.data|] != w.data {
          return None;
        }
      }
      return Some(Ack(w.head, received, NOBODY));
    }

    /** One incoming message, exactly as the protocol says. */
    method Hear(w: Wire, fate: Fate) returns (reply: Option<Wire>)
      modifies this
      ensures Same(State(), Receive(old(State()), w, fate).0) && reply == Receive(old(State()), w, fate).1
    {
      hide Transfer, Deliver, HearAck, HearForwardAck, FindReceipt;
      reply := None;
      if halted || recovery {
        return;
      }
      if w.Ack? || w.ForwardAck? {
        if source {
          HearAcknowledgement(w, fate);
        }
        return;
      }
      if source || !allow {
        return;
      }
      var found := SearchReceipts(store.receipts, w.head);
      FoundInRange(store.receipts, w.head);
      if found.Some? {
        if w.Forward? {
          reply := DeliverLetter(found.value, w, fate);
        } else {
          imported := store.receipts[found.value].target;
          reply := Some(Ack(w.head, w.head.total, imported));
        }
      } else if !w.Forward? {
        reply := HearTransfer(w, fate);
      }
    }

    // ---- Around the protocol ------------------------------------------------------------------

    /** Power loss or remount: only the store survives. */
    method Reopen(mayImport: bool)
      modifies this
      ensures State() == Restart(old(State()), mayImport)
    {
      recovery, source, phase, record, bundle := false, false, 0, BLANK_RECORD, None;
      total, received, allow, halted, imported, attached := 0, 0, mayImport, false, NOBODY, NOBODY;
    }

    /** A new component takes four fresh ids; a handler's effects are committed with its component. */
    method Replace(s: Store, fate: Fate)
      requires !recovery
      modifies this`store, this`recovery
      ensures State() == match fate
                         case Commits => old(State()).(store := s)
                         case Refused => old(State())
                         case _ => Uncertain(old(State()), s, fate)
    {
      var status := Commit(s, fate);
    }
  }

  lemma ImportableParts(n: Node, head: Head)
    requires MayImport(n, head)
    ensures head.digest != [] && n.store.next + 3 !in n.store.components
  {
    hide Encode, SelfOnly;
  }

  lemma EncodeLength(b: Bundle)
    ensures |Encode(b)| == Size(b)
  {
  }

  lemma FoundInRange(receipts: seq<Receipt>, head: Head)
    ensures FindReceipt(receipts, head).Some? ==> FindReceipt(receipts, head).value < |receipts|
  {
  }
}
