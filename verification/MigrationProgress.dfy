/**
 * Nothing departed is stranded: from whatever state crashes and losses left behind, a fenced
 * component can still be imported by a peer that has room, and its source can still learn of it.
 */
module MigrationProgress {
  import opened ObjectIds
  import opened Migrations
  import opened MigrationSafety
  import opened MigrationTheorems

  ghost predicate Reaches(s: System, t: System) {
    exists moves :: Run(s, moves) == t
  }

  lemma Stays(s: System)
    ensures Reaches(s, s)
  {
    assert Run(s, []) == s;
  }

  lemma ReachesNext(s: System, t: System, move: Move)
    requires Reaches(s, t)
    ensures Reaches(s, Moved(t, move))
  {
    hide Moved;
    var moves :| Run(s, moves) == t;
    assert (moves + [move])[..|moves|] == moves;
    assert Run(s, moves + [move]) == Moved(t, move);
  }

  lemma ReachesFurther(s: System, t: System, u: System)
    requires Reaches(s, t) && Reaches(t, u)
    ensures Reaches(s, u)
  {
    hide Run;
    var first :| Run(s, first) == t;
    var second :| Run(t, second) == u;
    RunAppends(s, first, second);
  }

  /** The source's endpoint when the peer has acknowledged `received` bytes. */
  function Carrying(record: Record, phase: nat, received: nat): Endpoint {
    Opened(true).(source := true, phase := phase, record := record, bundle := Some(record.digest),
                  total := |record.digest|, received := received)
  }

  /** The target's endpoint when it has so many bytes. */
  function Gathering(record: Record, received: nat): Endpoint
    requires received <= |record.digest|
  {
    Opened(true).(record := record, bundle := Some(record.digest[..received]), total := |record.digest|, received := received)
  }

  function HeadFor(record: Record): Head {
    Head(record.root, record.generation, record.digest, |record.digest|)
  }

  /** Fenced towards a target not yet known, with no letter posted for it. */
  predicate Departed(s: Store, root: nat) {
    Gone(s, root) && s.fences[root].target == NOBODY && s.fences[root].forward == 0
  }

  ghost predicate Waiting(s: System, record: Record) {
    && Departed(s.n.store, record.root) && s.n.store.fences[record.root] == record && Inv(s)
  }

  /** Both endpoints hold the same prefix. */
  ghost predicate Ferrying(s: System, record: Record, received: nat) {
    && received <= |record.digest| && !s.n.recovery && !s.p.recovery
    && s.n.m == Carrying(record, 1, received) && s.p.m == Gathering(record, received)
    && FindReceipt(s.p.store.receipts, HeadFor(record)).None?
  }

  predicate SameDisks(s: System, t: System) {
    s.n.id == t.n.id && s.p.id == t.p.id && s.n.store == t.n.store && s.p.store == t.p.store
  }

  // ---- The transfer -----------------------------------------------------------------------------

  /** Source and target come up afresh, the source resumes and announces the bundle. */
  lemma Announced(s: System, record: Record) returns (t: System)
    requires Waiting(s, record)
    ensures Reaches(s, t) && SameDisks(s, t) && Begins(HeadFor(record)) in t.out
    ensures t.n == Node(s.n.id, s.n.store, false, Carrying(record, 0, 0))
    ensures t.p == Restart(s.p, true)
  {
    hide StoresOk, MemoryOk, Run, Reaches;
    FencedWhole(s, record);
    Stays(s);
    ReachesNext(s, s, Move(true, Restarts(true)));
    var up := Moved(s, Move(true, Restarts(true)));
    assert up == s.(n := Restart(s.n, true));
    ReachesNext(s, up, Move(true, Resumes(record.root, true)));
    var resumed := Moved(up, Move(true, Resumes(record.root, true)));
    ResumesWhole(up.n, record);
    assert resumed == up.(n := up.n.(m := Carrying(record, 0, 0)));
    ReachesNext(s, resumed, Move(false, Restarts(true)));
    var ready := Moved(resumed, Move(false, Restarts(true)));
    assert ready == resumed.(p := Restart(s.p, true));
    ReachesNext(s, ready, Move(true, Sends));
    t := Moved(ready, Move(true, Sends));
    assert NextPacket(ready.n) == Some(Begins(HeadFor(record)));
  }

  lemma FencedWhole(s: System, record: Record)
    requires Waiting(s, record)
    ensures var b := BundleFor(s.n.id, s.n.store, record.root, record.generation);
            && record.root in s.n.store.components && record.digest == Encode(b) && |record.digest| == Size(b) <= BUNDLE_MAX
            && SelfOnly(s.n.store.components[record.root].caps, record.root)
    ensures record.root != NOBODY && s.n.id + s.p.id == 1
  {
    hide MemoryOk, ReceiptsOk, DeparturesOk, MessagesOk, SelfOnly;
    assert FenceOk(s.n.id, s.n.store, record.root);
  }

  lemma ResumesWhole(n: Node, record: Record)
    requires n.m == Opened(true) && !n.recovery && record.root != NOBODY
    requires record.root in n.store.fences && n.store.fences[record.root] == record && record.forward == 0
    requires record.target == NOBODY && record.root in n.store.components
    requires SelfOnly(n.store.components[record.root].caps, record.root)
    requires var b := BundleFor(n.id, n.store, record.root, record.generation);
             record.digest == Encode(b) && Size(b) <= BUNDLE_MAX
    ensures Resume(n, record.root, true) == n.(m := Carrying(record, 0, 0))
  {
    hide Encode, SelfOnly;
  }

  /** The target hears the announcement of a bundle it has not imported, and the source hears that. */
  lemma Accepted(s: System, record: Record) returns (t: System)
    requires s.n.m == Carrying(record, 0, 0) && s.p.m == Opened(true) && !s.n.recovery && !s.p.recovery
    requires Begins(HeadFor(record)) in s.out && FindReceipt(s.p.store.receipts, HeadFor(record)).None?
    requires record.target == NOBODY && record.forward == 0
    ensures Reaches(s, t) && SameDisks(s, t) && Ferrying(t, record, 0)
  {
    hide Run, Reaches, FindReceipt;
    var head := HeadFor(record);
    Stays(s);
    ReachesNext(s, s, Move(false, Hears(Begins(head), Commits)));
    var heard := Moved(s, Move(false, Hears(Begins(head), Commits)));
    assert record.digest[..0] == [];
    assert heard.p == s.p.(m := Gathering(record, 0)) && heard.n == s.n && Ack(head, 0, NOBODY) in heard.pout;
    ReachesNext(s, heard, Move(true, Hears(Ack(head, 0, NOBODY), Commits)));
    t := Moved(heard, Move(true, Hears(Ack(head, 0, NOBODY), Commits)));
  }

  /** One chunk and its acknowledgement. */
  lemma Ferried(s: System, record: Record, received: nat) returns (t: System, more: nat)
    requires Ferrying(s, record, received) && received < |record.digest|
    ensures Reaches(s, t) && SameDisks(s, t) && Ferrying(t, record, more) && received < more
  {
    hide Run, Reaches, FindReceipt;
    var head := HeadFor(record);
    more := if received + CHUNK_BYTES <= |record.digest| then received + CHUNK_BYTES else |record.digest|;
    var chunk := Chunk(head, received, record.digest[received..more]);
    Stays(s);
    ReachesNext(s, s, Move(true, Sends));
    var sent := Moved(s, Move(true, Sends));
    assert sent == s.(out := s.out + {chunk});
    ReachesNext(s, sent, Move(false, Hears(chunk, Commits)));
    var heard := Moved(sent, Move(false, Hears(chunk, Commits)));
    assert record.digest[..received] + record.digest[received..more] == record.digest[..more];
    assert heard.p == sent.p.(m := Gathering(record, more)) && heard.n == s.n && Ack(head, more, NOBODY) in heard.pout;
    ReachesNext(s, heard, Move(true, Hears(Ack(head, more, NOBODY), Commits)));
    t := Moved(heard, Move(true, Hears(Ack(head, more, NOBODY), Commits)));
  }

  lemma {:induction false} FerriedAll(s: System, record: Record, received: nat) returns (t: System)
    requires Ferrying(s, record, received)
    ensures Reaches(s, t) && SameDisks(s, t) && Ferrying(t, record, |record.digest|)
    decreases |record.digest| - received
  {
    hide Reaches;
    if received == |record.digest| {
      Stays(s);
      t := s;
    } else {
      var next, more := Ferried(s, record, received);
      t := FerriedAll(next, record, more);
      ReachesFurther(s, next, t);
    }
  }

  predicate Roomy(s: Store) {
    |s.registry| < COMPONENT_MAX && s.next + 4 <= UINT64_MAX
  }

  lemma WholeIsImportable(s: System, n: Node, record: Record)
    requires Waiting(s, record) && Roomy(s.p.store) && n.id == s.p.id && n.store == s.p.store
    requires n.m == Gathering(record, |record.digest|)
    ensures MayImport(n, HeadFor(record))
  {
    hide MemoryOk, ReceiptsOk, DeparturesOk, MessagesOk, SelfOnly;
    FencedWhole(s, record);
    assert record.digest[0].bundle == BundleFor(s.n.id, s.n.store, record.root, record.generation);
    assert record.digest[..|record.digest|] == record.digest;
    forall r | r in s.p.store.fences
      ensures r != s.p.store.next + 3
    {
      assert FenceOk(s.p.id, s.p.store, r);
    }
  }

  /** The end of the bundle makes the target import it. */
  lemma Imported(s: System, record: Record, t: System) returns (u: System)
    requires Waiting(s, record) && Roomy(s.p.store) && SameDisks(s, t) && Ferrying(t, record, |record.digest|)
    ensures Reaches(t, u) && u.n == t.n && !u.p.recovery
    ensures u.p.store == ImportedStore(t.p, HeadFor(record))
    ensures Ack(HeadFor(record), |record.digest|, s.p.store.next + 3) in u.pout
  {
    hide Run, Reaches, FindReceipt, Inv, MayImport;
    var head := HeadFor(record);
    WholeIsImportable(s, t.p, record);
    Stays(t);
    ReachesNext(t, t, Move(true, Sends));
    var sent := Moved(t, Move(true, Sends));
    assert sent == t.(out := t.out + {Ends(head)});
    ReachesNext(t, sent, Move(false, Hears(Ends(head), Commits)));
    u := Moved(sent, Move(false, Hears(Ends(head), Commits)));
  }

  /** The source hears of the import: its fence names the target. */
  lemma Confirmed(s: System, record: Record, target: nat) returns (t: System)
    requires !s.n.recovery && s.n.m.source && s.n.m.record == record && s.n.m.total == |record.digest| && !s.n.m.halted
    requires record.target == NOBODY != target && Ack(HeadFor(record), |record.digest|, target) in s.pout
    ensures Reaches(s, t) && t.p == s.p
    ensures t.n.store == s.n.store.(fences := s.n.store.fences[record.root := record.(target := target)])
    ensures !t.n.recovery && t.n.m.source && t.n.m.phase == 3 && t.n.m.bundle.None? && !t.n.m.halted
    ensures t.n.m.record == record.(target := target)
  {
    hide Run, Reaches;
    var ack := Ack(HeadFor(record), |record.digest|, target);
    Stays(s);
    ReachesNext(s, s, Move(true, Hears(ack, Commits)));
    t := Moved(s, Move(true, Hears(ack, Commits)));
  }

  // ---- Main result --------------------------------------------------------------------------------

  /** The departure is complete on both disks, and nothing else on the source's changed. */
  ghost predicate Complete(s: System, t: System, root: nat) {
    && root in s.n.store.fences && root in t.n.store.fences
    && t.n.store == s.n.store.(fences := s.n.store.fences[root := t.n.store.fences[root]])
    && t.n.store.fences[root] == s.n.store.fences[root].(target := t.n.store.fences[root].target)
    && Came(t.p.store, root, t.n.store.fences[root].target)
    && !Halted(t.n) && t.n.m.source && t.n.m.phase == 3 && t.n.m.bundle.None? && t.n.m.record == t.n.store.fences[root]
  }

  /** The target's disk with the fenced component imported under its next root. */
  ghost predicate ImportedAs(s: System, root: nat, after: Store) {
    && root in s.n.store.fences && s.n.store.fences[root].digest != []
    && after == ImportedStore(s.p, HeadFor(s.n.store.fences[root]))
  }

  /**
   * A departure can be completed from every reachable state in which it is fenced, whatever
   * was lost and whichever node went down, as long as the target still has room for it or
   * has imported it already.
   */
  lemma DepartureCanComplete(s: System, root: nat) returns (t: System)
    requires Reachable(s) && Departed(s.n.store, root)
    requires Roomy(s.p.store) || exists target :: Came(s.p.store, root, target)
    ensures Reaches(s, t) && Complete(s, t, root) && t.n.store.fences[root].target != NOBODY
    ensures (!exists target :: Came(s.p.store, root, target)) ==> ImportedAs(s, root, t.p.store)
  {
    hide Reachable, Reaches, Inv, Complete;
    ReachableIsSafe(s);
    var record := s.n.store.fences[root];
    RecordOfRoot(s, root);
    FencedWhole(s, record);
    var announced := Announced(s, record);
    var found := FindReceipt(s.p.store.receipts, HeadFor(record));
    if found.Some? {
      assert Came(s.p.store, root, s.p.store.receipts[found.value].target);
      t := CompletedBefore(s, announced, record, found.value);
      ReachesFurther(s, announced, t);
    } else {
      NotYetCame(s, record);
      var accepted := Accepted(announced, record);
      var whole := FerriedAll(accepted, record, 0);
      var imported := Imported(s, record, whole);
      t := Confirmed(imported, record, s.p.store.next + 3);
      ReachesFurther(s, announced, accepted);
      ReachesFurther(s, accepted, whole);
      ReachesFurther(s, whole, imported);
      ReachesFurther(s, imported, t);
      CompletedNow(s, whole, t, record);
    }
  }

  lemma RecordOfRoot(s: System, root: nat)
    requires Inv(s) && Departed(s.n.store, root)
    ensures Waiting(s, s.n.store.fences[root]) && s.n.store.fences[root].root == root
  {
    hide MemoryOk, ReceiptsOk, DeparturesOk, MessagesOk, SelfOnly, Encode;
    assert FenceOk(s.n.id, s.n.store, root);
  }

  /** Without a receipt for this very bundle the component never came. */
  lemma NotYetCame(s: System, record: Record)
    requires Waiting(s, record) && FindReceipt(s.p.store.receipts, HeadFor(record)).None?
    ensures !exists target :: Came(s.p.store, record.root, target)
  {
    hide MemoryOk, FencesOk, StoreOk, DeparturesOk, MessagesOk, SelfOnly, Encode;
    forall i | 0 <= i < |s.p.store.receipts|
      ensures s.p.store.receipts[i].source != record.root
    {
      assert ReceiptOk(s.n.store, s.p.store.receipts[i], s.posted, s.parrived);
    }
  }

  /** The import happened before: announcing it again tells its target. */
  lemma CompletedBefore(s: System, t: System, record: Record, index: nat) returns (u: System)
    requires Waiting(s, record) && SameDisks(s, t) && Begins(HeadFor(record)) in t.out
    requires t.n == Node(s.n.id, s.n.store, false, Carrying(record, 0, 0)) && t.p == Restart(s.p, true)
    requires FindReceipt(s.p.store.receipts, HeadFor(record)) == Some(index)
    ensures Reaches(t, u) && Complete(s, u, record.root) && u.n.store.fences[record.root].target != NOBODY
  {
    hide Run, Reaches, FindReceipt, Inv;
    var head, target := HeadFor(record), s.p.store.receipts[index].target;
    TargetIsSomebody(s, index);
    Stays(t);
    ReachesNext(t, t, Move(false, Hears(Begins(head), Commits)));
    var heard := Moved(t, Move(false, Hears(Begins(head), Commits)));
    assert heard.p.store == s.p.store && heard.n == t.n && Ack(head, |record.digest|, target) in heard.pout;
    u := Confirmed(heard, record, target);
    ReachesFurther(t, heard, u);
    assert Came(u.p.store, record.root, target);
  }

  lemma TargetIsSomebody(s: System, index: nat)
    requires Inv(s) && index < |s.p.store.receipts|
    ensures s.p.store.receipts[index].target != NOBODY
  {
    hide MemoryOk, FencesOk, ReceiptsOk, DeparturesOk, MessagesOk;
  }

  lemma CompletedNow(s: System, whole: System, t: System, record: Record)
    requires Waiting(s, record) && SameDisks(s, whole) && record.digest != []
    requires t.p.store == ImportedStore(whole.p, HeadFor(record))
    requires t.n.store == s.n.store.(fences := s.n.store.fences[record.root := record.(target := s.p.store.next + 3)])
    requires !Halted(t.n) && t.n.m.source && t.n.m.phase == 3 && t.n.m.bundle.None?
    requires t.n.m.record == record.(target := s.p.store.next + 3)
    ensures Complete(s, t, record.root)
  {
    hide Inv, SelfOnly;
    var i := |s.p.store.receipts|;
    assert t.p.store.receipts[i].source == record.root && t.p.store.receipts[i].target == s.p.store.next + 3;
  }

  // ---- A completed migration with another component at home ---------------------------------------

  const PLAIN := Component([], [], [], [])

  /** Two components spawn; the first one leaves. */
  lemma FirstLeaves() returns (s: System)
    ensures Reachable(s) && s.n.store.registry == [8] && Departed(s.n.store, 4) && s.p.store == EMPTY_STORE
    ensures 4 in s.n.store.components && s.n.store.components[4] == PLAIN && s.n.store.fences[4].generation == 1
    ensures s.n.store.outboxes == map[]
    ensures 8 in s.n.store.components && s.n.store.components[8] == PLAIN && 8 !in s.n.store.fences
  {
    hide Encode;
    var start := Fresh(true, true);
    var one := Moved(start, Move(true, Spawns(PLAIN, Commits)));
    assert one == start.(n := start.n.(store := Store([4], 5, map[4 := PLAIN], map[], [], map[])));
    var two := Moved(one, Move(true, Spawns(PLAIN, Commits)));
    assert two == one.(n := one.n.(store := Store([4, 8], 9, map[4 := PLAIN, 8 := PLAIN], map[], [], map[])));
    s := Moved(two, Move(true, Leaves(4, true, true, Commits)));
    assert Without([4, 8], 4) == [8];
    ThreeMoves(start, Move(true, Spawns(PLAIN, Commits)), Move(true, Spawns(PLAIN, Commits)), Move(true, Leaves(4, true, true, Commits)));
  }

  lemma ThreeMoves(s: System, a: Move, b: Move, c: Move)
    ensures Run(s, [a, b, c]) == Moved(Moved(Moved(s, a), b), c)
  {
    hide Moved;
    assert [a, b, c][..2] == [a, b] && [a, b][..1] == [a];
    RunOne(s, a);
  }

  /**
   * There are runs from two empty stores after which one migration is complete while a
   * second component may still leave: the states in which its refused departure goes wrong.
   */
  lemma RefusedDepartureHappens() returns (t: System)
    ensures Reachable(t) && !Halted(t.n) && t.n.m.source && t.n.m.phase == 3 && Runnable(t.n, 8) && MayLeave(t.n, 8)
  {
    hide Reachable, Reaches, Run;
    var s := FirstLeaves();
    t := DepartureCanComplete(s, 4);
    ReachedIsReachable(s, t);
  }

  // ---- A completed migration whose import has moved on --------------------------------------------

  /** Wherever it was imported, a component without capabilities may leave again after a restart. */
  lemma ImportLeaves(s: System, t: nat) returns (u: System)
    requires t != NOBODY && t in s.p.store.registry && t in s.p.store.components && t !in s.p.store.fences
    requires s.p.store.components[t] == PLAIN && PriorGeneration(s.p.store.receipts, t) < UINT64_MAX
    ensures Reaches(s, u) && u.n == s.n && t in u.p.store.fences && u.p.store.next == s.p.store.next
    ensures u.posted == s.posted && u.parrived == s.parrived
  {
    hide Run, Reaches, Encode, PriorGeneration, Without;
    Stays(s);
    ReachesNext(s, s, Move(false, Restarts(true)));
    var up := Moved(s, Move(false, Restarts(true)));
    ReachesNext(s, up, Move(false, Leaves(t, true, true, Commits)));
    u := Moved(up, Move(false, Leaves(t, true, true, Commits)));
  }

  /** Runs from two empty stores reach an endpoint that accepts letters for an import that has moved on. */
  lemma MovedOnHappens() returns (u: System)
    ensures Reachable(u) && Posts(u.n, []) && u.n.m.record.target != NOBODY && MovedOn(u.p.store, u.n.m.record.target)
  {
    hide Reachable, Reaches, Run, Encode, PriorGeneration;
    var s := FirstLeaves();
    var t := DepartureCanComplete(s, 4);
    FirstImport(s, t);
    u := ImportLeaves(t, 4);
    ReachesFurther(s, t, u);
    ReachedIsReachable(s, u);
  }

  /** What the first import looks like. */
  lemma FirstImport(s: System, t: System)
    requires Reachable(s) && Departed(s.n.store, 4) && s.p.store == EMPTY_STORE && ImportedAs(s, 4, t.p.store)
    requires 4 in s.n.store.components && s.n.store.components[4] == PLAIN && s.n.store.fences[4].generation == 1
    requires Complete(s, t, 4) && t.n.store.outboxes == map[]
    ensures t.p.store.registry == [4] && 4 in t.p.store.components && t.p.store.components[4] == PLAIN && t.p.store.fences == map[]
    ensures PriorGeneration(t.p.store.receipts, 4) == 1 && t.n.m.record.target == 4 && t.p.store.next == 5
  {
    hide Reachable, Encode, SelfOnly;
    ReachableIsSafe(s);
    var record := s.n.store.fences[4];
    RecordOfRoot(s, 4);
    FencedWhole(s, record);
    FirstCell(BundleFor(s.n.id, s.n.store, 4, record.generation));
    assert Rerooted([], 4) == [];
  }

  lemma FirstCell(b: Bundle)
    ensures Encode(b) != [] && Encode(b)[0].bundle == b
  {
  }

  lemma ReachedIsReachable(s: System, t: System)
    requires Reachable(s) && Reaches(s, t)
    ensures Reachable(t)
  {
    hide Run, Reachable;
    var moves :| Run(s, moves) == t;
    ReachableGoesOn(s, moves);
  }
}
