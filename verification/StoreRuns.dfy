/**
 * Whole runs of the object store: any operations in any order over a faulty device, with a
 * power failure possible at every point.
 */
module StoreRuns {
  import opened ObjectIds
  import opened Layout
  import opened BlockDevice
  import opened Recovery
  import opened Requests
  import opened Generations
  import opened ObjectStores

  datatype Op =
    | Put(requests: seq<PutRequest>)
    | Remove(id: ObjectId)
    | TakeSnapshot
    | DropSnapshot(snapshot: nat)
    | Rollback(snapshot: nat)
    | Reclaim

  /**
   * What the store serves, what a power failure right now may leave behind, and which operations
   * only a fault could stop.
   */
  datatype Moment = Moment(current: Generation, archive: Archive, gens: set<Generation>, archives: set<Archive>, can: iset<Op>)

  ghost predicate Serving(store: ObjectStore)
    reads store, store.device, store.allocator.bits
  {
    && store.Valid() && !store.recoveryRequired
    && store.Here() in store.held && SnapshotsHeld(store.snapshots, store.held)
  }

  /** The arguments are acceptable and there is room. */
  ghost predicate Feasible(op: Op, store: ObjectStore)
    requires SnapshotsHeld(store.snapshots, store.held)
    reads store, store.allocator.bits
  {
    match op
    case Put(requests) => store.Admissible(requests)
    case Remove(id) => store.Deletable(id)
    case TakeSnapshot => store.Snapshotable()
    case DropSnapshot(id) => id in store.Archive()
    case Rollback(id) => id in store.Archive() && store.generation < UINT64_MAX
    case Reclaim => true
  }

  ghost function Now(store: ObjectStore): Moment
    requires store.Here() in store.held && SnapshotsHeld(store.snapshots, store.held)
    reads store, store.allocator.bits
  {
    Moment(store.Current(), store.Archive(), store.Outcomes(), store.Archives(), iset op | Feasible(op, store))
  }

  /** Without faults a power failure has one outcome: what the store serves. */
  ghost predicate Certain(m: Moment) {
    m.gens == {m.current} && m.archives == {m.archive}
  }

  /** The same is served and archived. */
  ghost predicate Unmoved(m: Moment, after: Moment) {
    after.current == m.current && after.archive == m.archive
  }

  /** The operation turns what is served into generation `g` and archive `a`. */
  ghost predicate Effect(op: Op, m: Moment, g: Generation, a: Archive) {
    match op
    case Put(requests) => a == m.archive && PutOutcome(m.current, requests, g)
    case Remove(id) => a == m.archive && DeleteOutcome(m.current, id, g)
    case TakeSnapshot => g == m.current && exists id: nat :: id !in m.archive && a == m.archive[id := g]
    case DropSnapshot(id) => g == m.current && id in m.archive && a == m.archive - {id}
    case Rollback(id) => a == m.archive && id in m.archive && g == m.archive[id]
    case Reclaim => g == m.current && a == m.archive
  }

  ghost predicate Attempt(op: Op, m: Moment, g: Generation, a: Archive) {
    (g == m.current && a == m.archive) || Effect(op, m, g, a)
  }

  lemma ServingFacts(store: ObjectStore)
    requires store.Valid() && !store.recoveryRequired
    ensures Serving(store)
    ensures store.Outcomes() == {store.Current()} && store.Archive() in store.Archives()
    ensures Now(store).current == store.Current() && Now(store).archive == store.Archive()
  {
    hide Observe, Safe, SnapshotsHeld, ArchiveOf, HeldBelow, MarksRoot, MarksSnapshots, MarksHeaders, WellFormed, OnDisk;
    store.ReadyFacts();
  }

  /**
   * Everything an operation that began at moment `m` promises: it took effect or it did not,
   * and so it is after a power failure at any of the platters since `from`.
   */
  ghost predicate Performed(op: Op, m: Moment, ok: bool, g: Generation, a: Archive, store: ObjectStore, from: nat)
    reads store, store.device, store.allocator.bits
  {
    && store.Valid()
    && Attempt(op, m, g, a)
    && CrashTail(store.device.history, from, store.capacity, m.gens + {g}, m.archives + {a})
    && store.Outcomes() <= m.gens + {g} && store.Archives() <= m.archives + {a}
    && (ok ==> !store.recoveryRequired && op in m.can)
    && (op in m.can && !store.device.FaultedSince(from) ==> ok)
    && (store.recoveryRequired ==> store.device.FaultedSince(from))
    && (!store.recoveryRequired ==>
          && Serving(store)
          && (ok ==> Effect(op, m, g, a) && Now(store).current == g && Now(store).archive == a)
          && (ok && op.TakeSnapshot? ==> Certain(Now(store)))
          && (!ok ==> Now(store).current == m.current && Now(store).archive == m.archive)
          && (!store.device.FaultedSince(from) && Certain(m) ==> Certain(Now(store))))
  }

  method DoPut(store: ObjectStore, requests: seq<PutRequest>) returns (ok: bool, ghost g: Generation)
    requires Serving(store)
    modifies store, store.device, store.allocator.bits
    ensures old(store.device.history) <= store.device.history
    ensures Performed(Put(requests), old(Now(store)), ok, g, old(Now(store)).archive, store, old(|store.device.history|))
  {
    hide CrashTail, ArchivesOf, ArchiveOf, SnapshotsHeld, PutOutcome, Stageable;
    hide ObjectStore.Valid;
    ServingFacts(store);
    ghost var m, n := Now(store), |store.device.history|;
    var result;
    result, g := store.PutMany(requests);
    ok := result.Committed?;
    if !store.recoveryRequired {
      ServingFacts(store);
    }
    WidenTail(store.device.history, n, store.capacity, {m.current, g}, m.archives, m.gens + {g}, m.archives + {m.archive});
  }

  method DoRemove(store: ObjectStore, id: ObjectId) returns (ok: bool, ghost g: Generation)
    requires Serving(store)
    modifies store, store.device, store.allocator.bits
    ensures old(store.device.history) <= store.device.history
    ensures Performed(Remove(id), old(Now(store)), ok, g, old(Now(store)).archive, store, old(|store.device.history|))
  {
    hide CrashTail, ArchivesOf, ArchiveOf, SnapshotsHeld, DeleteOutcome;
    hide ObjectStore.Valid;
    ServingFacts(store);
    ghost var m, n := Now(store), |store.device.history|;
    ok, g := store.Delete(id);
    if !store.recoveryRequired {
      ServingFacts(store);
    }
    WidenTail(store.device.history, n, store.capacity, {m.current, g}, m.archives, m.gens + {g}, m.archives + {m.archive});
  }

  lemma FreshId(store: ObjectStore)
    requires Serving(store) && store.Snapshotable()
    ensures store.generation + 1 !in store.Archive()
  {
    hide ObjectStore.Valid;
    NotListed(store.snapshots, store.held, store.generation + 1);
  }

  method DoTake(store: ObjectStore) returns (ok: bool, ghost a: Archive)
    requires Serving(store)
    modifies store, store.device, store.allocator.bits
    ensures old(store.device.history) <= store.device.history
    ensures Performed(TakeSnapshot, old(Now(store)), ok, old(Now(store)).current, a, store, old(|store.device.history|))
  {
    hide CrashTail, ArchivesOf, ArchiveOf, SnapshotsHeld;
    hide ObjectStore.Valid;
    ServingFacts(store);
    ghost var m, n := Now(store), |store.device.history|;
    EmptyTail(store.device.history, store.capacity, m.gens + {m.current}, m.archives + {m.archive});
    a := m.archive;
    if store.Snapshotable() {
      a := m.archive[store.generation + 1 := m.current];
      FreshId(store);
    }
    var id;
    ok, id := store.SnapshotCreate();
    if !store.recoveryRequired {
      ServingFacts(store);
    }
    if a != m.archive {
      WidenTail(store.device.history, n, store.capacity, {m.current}, m.archives + {a}, m.gens + {m.current}, m.archives + {a});
    }
  }

  method DoDrop(store: ObjectStore, id: nat) returns (ok: bool)
    requires Serving(store)
    modifies store, store.device, store.allocator.bits
    ensures old(store.device.history) <= store.device.history
    ensures Performed(DropSnapshot(id), old(Now(store)), ok, old(Now(store)).current, old(Now(store)).archive - {id}, store, old(|store.device.history|))
  {
    hide CrashTail, ArchivesOf, ArchiveOf, SnapshotsHeld;
    hide ObjectStore.Valid;
    ServingFacts(store);
    ghost var m, n := Now(store), |store.device.history|;
    ok := store.SnapshotDiscard(id);
    if !store.recoveryRequired {
      ServingFacts(store);
    }
    WidenTail(store.device.history, n, store.capacity, {m.current}, m.archives + {m.archive - {id}},
              m.gens + {m.current}, m.archives + {m.archive - {id}});
  }

  method DoRollback(store: ObjectStore, id: nat) returns (ok: bool, ghost g: Generation)
    requires Serving(store)
    modifies store, store.device, store.allocator.bits
    ensures old(store.device.history) <= store.device.history
    ensures Performed(Rollback(id), old(Now(store)), ok, g, old(Now(store)).archive, store, old(|store.device.history|))
  {
    hide CrashTail, ArchivesOf, ArchiveOf, SnapshotsHeld;
    hide ObjectStore.Valid;
    ServingFacts(store);
    ghost var m, n := Now(store), |store.device.history|;
    g := if id in m.archive then m.archive[id] else m.current;
    ok := store.SnapshotRollback(id);
    if !store.recoveryRequired {
      ServingFacts(store);
    }
    WidenTail(store.device.history, n, store.capacity, if id in m.archive then {m.current, g} else {m.current}, m.archives,
              m.gens + {g}, m.archives + {m.archive});
  }

  method DoReclaim(store: ObjectStore) returns (ok: bool)
    requires Serving(store)
    modifies store, store.device, store.allocator.bits
    ensures old(store.device.history) <= store.device.history
    ensures Performed(Reclaim, old(Now(store)), ok, old(Now(store)).current, old(Now(store)).archive, store, old(|store.device.history|))
  {
    hide CrashTail, ArchivesOf, ArchiveOf, SnapshotsHeld;
    hide ObjectStore.Valid;
    ServingFacts(store);
    ghost var m, n := Now(store), |store.device.history|;
    EmptyTail(store.device.history, store.capacity, m.gens + {m.current}, m.archives + {m.archive});
    ok := store.Collect();
    if !store.recoveryRequired {
      ServingFacts(store);
    }
  }

  method Perform(store: ObjectStore, op: Op) returns (ok: bool, ghost g: Generation, ghost a: Archive)
    requires Serving(store)
    modifies store, store.device, store.allocator.bits
    ensures old(store.device.history) <= store.device.history
    ensures Performed(op, old(Now(store)), ok, g, a, store, old(|store.device.history|))
  {
    hide Performed;
    ghost var m := Now(store);
    g, a := m.current, m.archive;
    match op
    case Put(requests) => ok, g := DoPut(store, requests);
    case Remove(id) => ok, g := DoRemove(store, id);
    case TakeSnapshot => ok, a := DoTake(store);
    case DropSnapshot(id) =>
      ok := DoDrop(store, id);
      a := m.archive - {id};
    case Rollback(id) => ok, g := DoRollback(store, id);
    case Reclaim => ok := DoReclaim(store);
  }

  // ---- Runs -----------------------------------------------------------------------------

  /** What an operation was trying to reach. */
  datatype Goal = Goal(current: Generation, archive: Archive)

  /**
   * From one moment to the next: the operation took effect or not, as reported, and if a fault
   * left that open, mounting again settled it.
   */
  ghost predicate Link(op: Op, m: Moment, goal: Goal, ok: bool, after: Moment) {
    && Attempt(op, m, goal.current, goal.archive)
    && after.gens == {after.current} && (after.current == m.current || after.current == goal.current)
    && after.archive in after.archives && after.archives <= m.archives + {goal.archive}
    && (ok ==> op in m.can && Effect(op, m, goal.current, goal.archive)
               && after.current == goal.current && after.archive == goal.archive)
    && (ok && op.TakeSnapshot? ==> Certain(after))
  }

  /**
   * Where no request failed: the operation succeeded exactly if it was feasible, otherwise all is
   * as it was, and a power failure afterwards has one outcome if it had one before.
   */
  ghost predicate Concluded(op: Op, m: Moment, ok: bool, after: Moment) {
    && (ok <==> op in m.can)
    && (!ok ==> Unmoved(m, after))
    && (Certain(m) ==> Certain(after))
  }

  /** All requests in a stretch of the history were served. */
  ghost predicate Smooth(faults: nat -> Fault, from: nat, to: nat) {
    forall c: nat :: from <= c < to ==> faults(c).Served?
  }

  /** A power failure at any of these platters leaves the state before or the goal. */
  ghost predicate Segment(history: seq<Platter>, from: nat, to: nat, capacity: nat, m: Moment, goal: Goal) {
    && from <= to <= |history|
    && forall h :: from <= h < to ==>
         CrashesInto(history[h], capacity, m.gens + {goal.current}, m.archives + {goal.archive})
  }

  /** A power failure between operations leaves what the moment says. */
  ghost predicate Rests(p: Platter, capacity: nat, m: Moment) {
    CrashesInto(p, capacity, m.gens, m.archives)
  }

  /**
   * The trace of a run: `moments[i]` precedes operation `i`, which tried to reach `goals[i]`
   * while the device went through the platters from `marks[i]` to `marks[i + 1]`, and said
   * whether it did. Between operations the device rests at `rests[i]`.
   */
  datatype Trace = Trace(moments: seq<Moment>, goals: seq<Goal>, oks: seq<bool>, marks: seq<nat>, rests: seq<Platter>)

  ghost predicate IsTrace(t: Trace, ops: seq<Op>, history: seq<Platter>, capacity: nat, faults: nat -> Fault) {
    && |t.oks| == |t.goals| <= |ops|
    && |t.marks| == |t.goals| + 1
    && |t.goals| <= |t.moments| <= |t.goals| + 1 && |t.rests| == |t.moments|
    && (forall i :: 0 <= i < |t.moments| ==> Rests(t.rests[i], capacity, t.moments[i]))
    && (forall i :: 0 <= i < |t.goals| ==>
          && Segment(history, t.marks[i], t.marks[i + 1], capacity, t.moments[i], t.goals[i])
          && Attempt(ops[i], t.moments[i], t.goals[i].current, t.goals[i].archive))
    && (forall i :: 0 <= i < |t.moments| - 1 ==> Link(ops[i], t.moments[i], t.goals[i], t.oks[i], t.moments[i + 1]))
    && (forall i :: 0 <= i < |t.goals| && Smooth(faults, t.marks[i], t.marks[i + 1]) ==>
          i + 1 < |t.moments| && Concluded(ops[i], t.moments[i], t.oks[i], t.moments[i + 1]))
  }

  lemma SegmentKept(history: seq<Platter>, longer: seq<Platter>, from: nat, to: nat, capacity: nat, m: Moment, goal: Goal)
    requires history <= longer && Segment(history, from, to, capacity, m, goal)
    ensures Segment(longer, from, to, capacity, m, goal)
  {
    hide CrashesInto;
    assert forall h :: from <= h < to ==> longer[h] == history[h];
  }

  lemma FirstTrace(m: Moment, ops: seq<Op>, history: seq<Platter>, capacity: nat, faults: nat -> Fault, rest: Platter)
    requires Rests(rest, capacity, m)
    ensures IsTrace(Trace([m], [], [], [|history|], [rest]), ops, history, capacity, faults)
  {
  }

  /** One more operation extends a trace; without a next moment the trace ends there. */
  lemma ExtendTrace(t: Trace, ops: seq<Op>, history: seq<Platter>, longer: seq<Platter>, capacity: nat, faults: nat -> Fault,
                    goal: Goal, ok: bool, next: seq<Moment>, rest: seq<Platter>)
    requires IsTrace(t, ops, history, capacity, faults) && |t.goals| < |ops| && |t.moments| == |t.goals| + 1
    requires history <= longer && t.marks[|t.goals|] == |history|
    requires CrashTail(longer, |history|, capacity, t.moments[|t.goals|].gens + {goal.current},
                       t.moments[|t.goals|].archives + {goal.archive})
    requires |next| <= 1 && (|next| == 1 ==> Link(ops[|t.goals|], t.moments[|t.goals|], goal, ok, next[0]))
    requires Attempt(ops[|t.goals|], t.moments[|t.goals|], goal.current, goal.archive)
    requires |rest| == |next| && (|next| == 1 ==> Rests(rest[0], capacity, next[0]))
    requires Smooth(faults, |history|, |longer|) ==>
               |next| == 1 && Concluded(ops[|t.goals|], t.moments[|t.goals|], ok, next[0])
    ensures IsTrace(Trace(t.moments + next, t.goals + [goal], t.oks + [ok], t.marks + [|longer|], t.rests + rest),
                    ops, longer, capacity, faults)
  {
    hide CrashesInto, Link, Smooth, Certain, Unmoved, Concluded, Rests, Attempt;
    var n, u := |t.goals|, Trace(t.moments + next, t.goals + [goal], t.oks + [ok], t.marks + [|longer|], t.rests + rest);
    forall i | 0 <= i < |u.goals|
      ensures Segment(longer, u.marks[i], u.marks[i + 1], capacity, u.moments[i], u.goals[i])
    {
      if i < n {
        SegmentKept(history, longer, t.marks[i], t.marks[i + 1], capacity, t.moments[i], t.goals[i]);
      }
    }
    forall i | 0 <= i < |u.goals| && Smooth(faults, u.marks[i], u.marks[i + 1])
      ensures i + 1 < |u.moments| && Concluded(ops[i], u.moments[i], u.oks[i], u.moments[i + 1])
    {
      if i < n {
        assert Smooth(faults, t.marks[i], t.marks[i + 1]);
      }
    }
  }

  /** Runs one operation and, should it leave the store quarantined, mounts it again. */
  method Advance(store: ObjectStore, op: Op) returns (ok: bool, ghost goal: Goal)
    requires Serving(store) && store.SetupOk()
    modifies store, store.device, store.allocator.bits
    ensures store.Valid() && store.SetupOk() && old(store.device.history) <= store.device.history
    ensures Attempt(op, old(Now(store)), goal.current, goal.archive)
    ensures CrashTail(store.device.history, old(|store.device.history|), store.capacity,
                      old(Now(store)).gens + {goal.current}, old(Now(store)).archives + {goal.archive})
    ensures store.recoveryRequired ==> store.device.FaultedSince(old(|store.device.history|))
    ensures !store.recoveryRequired ==> Serving(store) && Link(op, old(Now(store)), goal, ok, Now(store))
    ensures !store.device.FaultedSince(old(|store.device.history|)) ==>
              !store.recoveryRequired && Concluded(op, old(Now(store)), ok, Now(store))
  {
    hide CrashTail, ArchivesOf, ArchiveOf, SnapshotsHeld, Effect, Attempt, Now, Performed;
    hide ObjectStore.Valid;
    ghost var m, n := Now(store), |store.device.history|;
    ServingFacts(store);
    ServingMoment(store);
    ghost var g, a;
    ok, g, a := Perform(store, op);
    goal := Goal(g, a);
    PerformedFacts(op, m, ok, g, a, store, n);
    if store.recoveryRequired {
      Remount(store, m, g, a, n);
    } else {
      ServingMoment(store);
    }
  }

  lemma RestsSafely(store: ObjectStore)
    requires Serving(store)
    ensures store.device.Valid() && Rests(store.device.View(), store.capacity, Now(store))
  {
    hide Observe, Safe, CrashesInto, ArchivesOf, ArchiveOf, SnapshotsHeld, Feasible;
    hide ObjectStore.ReadyWith, ObjectStore.GuardedBy;
    SafeCrashesInto(store.device.View(), store.capacity, store.held, store.lists, store.floor, store.roots,
                    store.Outcomes(), store.Archives());
  }

  lemma ServingMoment(store: ObjectStore)
    requires Serving(store)
    ensures Now(store).gens == {Now(store).current} && Now(store).archive in Now(store).archives
  {
    hide ObjectStore.Valid;
    ServingFacts(store);
  }

  lemma PerformedFacts(op: Op, m: Moment, ok: bool, g: Generation, a: Archive, store: ObjectStore, from: nat)
    requires Performed(op, m, ok, g, a, store, from)
    ensures store.Valid() && FIRST_ALLOCATABLE <= |store.device.durable| && Attempt(op, m, g, a)
    ensures CrashTail(store.device.history, from, store.capacity, m.gens + {g}, m.archives + {a})
    ensures store.Outcomes() <= m.gens + {g} && store.Archives() <= m.archives + {a}
    ensures ok ==> !store.recoveryRequired && op in m.can
    ensures op in m.can && !store.device.FaultedSince(from) ==> ok
    ensures store.recoveryRequired ==> store.device.FaultedSince(from)
    ensures !store.recoveryRequired ==>
              && Serving(store) && Now(store).archives <= m.archives + {a}
              && (ok ==> Effect(op, m, g, a) && Now(store).current == g && Now(store).archive == a)
              && (ok && op.TakeSnapshot? ==> Certain(Now(store)))
              && (!ok ==> Now(store).current == m.current && Now(store).archive == m.archive)
              && (!store.device.FaultedSince(from) && Certain(m) ==> Certain(Now(store)))
  {
    hide CrashTail, ArchivesOf, ArchiveOf, SnapshotsHeld, Effect, Attempt, Feasible;
    hide ObjectStore.ReadyWith, ObjectStore.GuardedBy;
  }

  /** Mounts a store an operation left quarantined: one of its two outcomes stands. */
  method Remount(store: ObjectStore, ghost m: Moment, ghost g: Generation, ghost a: Archive, ghost n: nat)
    requires store.Valid() && store.SetupOk() && store.recoveryRequired && n <= |store.device.history|
    requires store.Outcomes() <= m.gens + {g} && store.Archives() <= m.archives + {a}
    requires CrashTail(store.device.history, n, store.capacity, m.gens + {g}, m.archives + {a})
    modifies store, store.device, store.allocator.bits
    ensures store.Valid() && store.SetupOk() && old(store.device.history) <= store.device.history
    ensures CrashTail(store.device.history, n, store.capacity, m.gens + {g}, m.archives + {a})
    ensures !store.recoveryRequired ==>
              && Serving(store) && Now(store).gens == {Now(store).current} && Now(store).current in m.gens + {g}
              && Now(store).archive in Now(store).archives && Now(store).archives <= m.archives + {a}
  {
    hide CrashTail, ArchivesOf, ArchiveOf, SnapshotsHeld, Feasible;
    hide ObjectStore.ReadyWith, ObjectStore.GuardedBy;
    ghost var h, gens, archives := store.device.history, store.Outcomes(), store.Archives();
    var mounted := store.Mount();
    WidenTail(store.device.history, |h|, store.capacity, gens, archives, m.gens + {g}, m.archives + {a});
    JoinTails(h, store.device.history, n, store.capacity, m.gens + {g}, m.archives + {a});
    if !store.recoveryRequired {
      ServingFacts(store);
    }
  }

  /**
   * Any operations in any order: each one happens, and says so, or does not. At every platter on
   * the way a power failure leaves the state before the operation under way or its goal. Where no
   * request failed, an operation succeeds exactly if it was feasible.
   */
  method Run(store: ObjectStore, ops: seq<Op>) returns (oks: seq<bool>, ghost t: Trace)
    requires Serving(store) && store.SetupOk()
    modifies store, store.device, store.allocator.bits
    ensures store.Valid() && old(store.device.history) <= store.device.history
    ensures IsTrace(t, ops, store.device.history, store.capacity, store.device.faults) && t.oks == oks
    ensures t.moments != [] && t.moments[0] == old(Now(store)) && t.marks[0] == old(|store.device.history|)
    ensures t.moments[0].gens == {t.moments[0].current} && t.marks[|t.goals|] == |store.device.history|
    ensures store.recoveryRequired ==> |t.moments| <= |ops|
    ensures |t.moments| <= |ops| ==> store.recoveryRequired && |t.goals| == |t.moments|
                                     && !Smooth(store.device.faults, t.marks[|t.goals| - 1], t.marks[|t.goals|])
    ensures !store.recoveryRequired ==>
              Serving(store) && |t.moments| == |t.rests| == |ops| + 1 && t.moments[|ops|] == Now(store) && t.rests[|ops|] == store.device.View()
  {
    hide CrashTail, IsTrace, Link, Attempt, Concluded, Feasible, Rests, Observe;
    hide ObjectStore.Valid;
    ServingFacts(store);
    ghost var faults := store.device.faults;
    RestsSafely(store);
    oks, t := [], Trace([Now(store)], [], [], [|store.device.history|], [store.device.View()]);
    FirstTrace(Now(store), ops, store.device.history, store.capacity, faults, store.device.View());
    var i := 0;
    while i < |ops|
      invariant 0 <= i <= |ops| && Serving(store) && store.SetupOk()
      invariant old(store.device.history) <= store.device.history
      invariant IsTrace(t, ops, store.device.history, store.capacity, faults)
      invariant |t.goals| == i && |t.moments| == i + 1 && |t.marks| == i + 1 && t.oks == oks
      invariant t.moments[0] == old(Now(store)) && t.marks[0] == old(|store.device.history|)
      invariant t.moments[i] == Now(store) && t.marks[i] == |store.device.history|
      invariant store.device.Valid() && |t.rests| == i + 1 && t.rests[i] == store.device.View()
    {
      ghost var h := store.device.history;
      var ok;
      ghost var goal;
      ok, goal := Advance(store, ops[i]);
      if !store.recoveryRequired {
        RestsSafely(store);
      }
      ghost var next := if store.recoveryRequired then [] else [Now(store)];
      ghost var rest := if store.recoveryRequired then [] else [store.device.View()];
      ExtendTrace(t, ops, h, store.device.history, store.capacity, faults, goal, ok, next, rest);
      oks := oks + [ok];
      t := Trace(t.moments + next, t.goals + [goal], t.oks + [ok], t.marks + [|store.device.history|], t.rests + rest);
      if store.recoveryRequired {
        return;
      }
      i := i + 1;
    }
  }

  /** Every archive the store may hold or wake up with names this generation. */
  ghost predicate Kept(m: Moment, id: nat, g: Generation) {
    m.archive in m.archives && forall a :: a in m.archives ==> id in a && a[id] == g
  }

  /** A snapshot that was taken is kept, whatever failed before. */
  lemma TakenIsKept(t: Trace, ops: seq<Op>, history: seq<Platter>, capacity: nat, faults: nat -> Fault, i: nat) returns (id: nat)
    requires IsTrace(t, ops, history, capacity, faults) && i + 1 < |t.moments| && t.oks[i] && ops[i] == TakeSnapshot
    ensures id !in t.moments[i].archive && Kept(t.moments[i + 1], id, t.moments[i].current)
  {
    hide Segment, PutOutcome, DeleteOutcome, Smooth;
    var m, after := t.moments[i], t.moments[i + 1];
    assert Link(ops[i], m, t.goals[i], t.oks[i], after);
    id :| id !in m.archive && t.goals[i].archive == m.archive[id := t.goals[i].current];
  }

  /**
   * Snapshots survive: whatever runs in between, and whatever fails, every archive the store
   * may hold or wake up with still restores `id` to the same generation until it is dropped.
   */
  lemma {:induction false} SnapshotSurvives(t: Trace, ops: seq<Op>, history: seq<Platter>, capacity: nat, faults: nat -> Fault,
                                            i: nat, j: nat, id: nat, g: Generation)
    requires IsTrace(t, ops, history, capacity, faults) && i <= j < |t.moments| && Kept(t.moments[i], id, g)
    requires forall k :: i <= k < j ==> ops[k] != DropSnapshot(id)
    ensures Kept(t.moments[j], id, g)
    decreases j - i
  {
    hide Segment, PutOutcome, DeleteOutcome, Smooth;
    if i < j {
      assert Link(ops[i], t.moments[i], t.goals[i], t.oks[i], t.moments[i + 1]);
      SnapshotSurvives(t, ops, history, capacity, faults, i + 1, j, id, g);
    }
  }

  /** Rolling back, at any later point of any run, restores exactly what the snapshot named. */
  lemma RollbackRestores(t: Trace, ops: seq<Op>, history: seq<Platter>, capacity: nat, faults: nat -> Fault,
                         i: nat, j: nat, id: nat, g: Generation)
    requires IsTrace(t, ops, history, capacity, faults) && i <= j && j + 1 < |t.moments| && Kept(t.moments[i], id, g)
    requires forall k :: i <= k < j ==> ops[k] != DropSnapshot(id)
    requires ops[j] == Rollback(id) && t.oks[j]
    ensures t.moments[j + 1].current == g
  {
    hide Segment, PutOutcome, DeleteOutcome, Smooth;
    SnapshotSurvives(t, ops, history, capacity, faults, i, j, id, g);
    assert Link(ops[j], t.moments[j], t.goals[j], t.oks[j], t.moments[j + 1]);
  }

  /** A snapshot taken and later rolled back to brings back the very state it was taken of. */
  lemma SnapshotThenRollback(t: Trace, ops: seq<Op>, history: seq<Platter>, capacity: nat, faults: nat -> Fault, i: nat) returns (id: nat)
    requires IsTrace(t, ops, history, capacity, faults) && i + 1 < |t.moments| && t.oks[i] && ops[i] == TakeSnapshot
    ensures id !in t.moments[i].archive
    ensures forall j :: i < j && j + 1 < |t.moments| && ops[j] == Rollback(id) && t.oks[j]
                        && (forall k :: i < k < j ==> ops[k] != DropSnapshot(id)) ==>
              t.moments[j + 1].current == t.moments[i].current
  {
    hide IsTrace, Kept;
    id := TakenIsKept(t, ops, history, capacity, faults, i);
    TraceLengths(t, ops, history, capacity, faults);
    forall j | i < j && j + 1 < |t.moments| && ops[j] == Rollback(id) && t.oks[j]
               && (forall k :: i < k < j ==> ops[k] != DropSnapshot(id))
      ensures t.moments[j + 1].current == t.moments[i].current
    {
      RollbackRestores(t, ops, history, capacity, faults, i + 1, j, id, t.moments[i].current);
    }
  }

  lemma TraceLengths(t: Trace, ops: seq<Op>, history: seq<Platter>, capacity: nat, faults: nat -> Fault)
    requires IsTrace(t, ops, history, capacity, faults)
    ensures |t.oks| == |t.goals| <= |ops| && |t.goals| <= |t.moments| <= |t.goals| + 1
  {
  }

  /**
   * Power comes back on an image a crash left: the store mounts it unless the device faults,
   * serves exactly the surviving state, and another failure on the way changes nothing.
   */
  method PowerCycle(img: seq<Record>, capacity: nat, cacheCapacity: nat, faults: nat -> Fault,
                    ghost g: Generation, ghost archive: Archive)
    returns (store: ObjectStore, ok: bool)
    requires |img| >= FIRST_ALLOCATABLE && MountsInto(img, capacity, g, archive)
    requires capacity != 0 && HEADER_SIZE <= cacheCapacity
    ensures fresh(store) && fresh(store.device) && fresh(store.allocator.bits) && store.device.faults == faults
    ensures store.capacity == capacity && store.cacheCapacity == cacheCapacity
    ensures store.Valid() && store.SetupOk() && store.recoveryRequired == !ok
    ensures CrashTail(store.device.history, 0, capacity, {g}, {archive})
    ensures ok ==> Serving(store) && Now(store) == Moment(g, archive, {g}, {archive}, Now(store).can)
    ensures !store.device.FaultedSince(0) ==> ok
  {
    hide Observe, Safe, CrashTail, ArchivesOf, ArchiveOf, SnapshotsHeld, ArchiveOnDisk, OnDisk, WellFormed, Recover;
    hide ObjectStore.ReadyWith, ObjectStore.GuardedBy;
    ghost var m := Recover(img, capacity).value;
    ghost var held :| Resumable(img, capacity, m, g, archive, held);
    var device := new Device(img, faults);
    store := new ObjectStore(device, capacity, cacheCapacity, held, {m.sb.snapshots}, m.sb.sequence, {m.root});
    OnlyArchive(held, m.sb.snapshots);
    assert store.Outcomes() == {g};
    ok := store.Mount();
    if ok {
      ServingFacts(store);
    }
  }

  lemma OnlyArchive(held: Held, snapshots: seq<Snapshot>)
    requires SnapshotsHeld(snapshots, held)
    ensures ArchivesOf({snapshots}, held) == {ArchiveOf(snapshots, held)}
  {
    hide SnapshotsHeld, ArchiveOf;
  }
}
