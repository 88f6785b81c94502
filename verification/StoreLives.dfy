/**
 * The object store across power failures: run, lose power anywhere, come back, run again, and so
 * on. What a snapshot names outlives them all.
 */
module StoreLives {
  import opened ObjectIds
  import opened Layout
  import opened BlockDevice
  import opened Recovery
  import opened Generations
  import opened ObjectStores
  import opened StoreRuns

  /** Where the power fails: before any request, while mounting, between operations, or during one. */
  datatype Cut = Asleep | Mounting(at: nat) | Resting(before: nat) | During(op: nat, at: nat)

  /**
   * One stretch with power: the image it began with, what that mounted into, the operations and
   * their trace, everything the device went through, and where it ended.
   */
  datatype Epoch = Epoch(image: seq<Record>, woke: Goal, ops: seq<Op>, t: Trace, history: seq<Platter>, faults: nat -> Fault, cut: Cut)

  ghost predicate Woken(m: Moment, woke: Goal) {
    m.current == woke.current && m.archive == woke.archive && Certain(m)
  }

  ghost predicate EpochOk(e: Epoch, capacity: nat) {
    && |e.image| >= FIRST_ALLOCATABLE && MountsInto(e.image, capacity, e.woke.current, e.woke.archive)
    && IsTrace(e.t, e.ops, e.history, capacity, e.faults)
    && e.t.marks[0] <= |e.history| && e.t.marks[|e.t.goals|] == |e.history|
    && (forall h :: 0 <= h < e.t.marks[0] ==> CrashesInto(e.history[h], capacity, {e.woke.current}, {e.woke.archive}))
    && (e.t.moments != [] ==> Woken(e.t.moments[0], e.woke))
  }

  /** A power failure there leaves this image. */
  ghost predicate Leaves(e: Epoch, img: seq<Record>) {
    match e.cut
    case Asleep => img == e.image
    case Mounting(at) => e.t.marks != [] && at < e.t.marks[0] && at < |e.history| && IsImage(e.history[at], img)
    case Resting(i) => i < |e.t.moments| && i < |e.t.rests| && IsImage(e.t.rests[i], img)
    case During(i, at) =>
      && i < |e.t.goals| && i + 1 < |e.t.marks| && e.t.marks[i] <= at < e.t.marks[i + 1] && at < |e.history|
      && IsImage(e.history[at], img)
  }

  /** What may be found afterwards. */
  ghost predicate WakesAs(e: Epoch, woke: Goal) {
    match e.cut
    case Resting(i) => i < |e.t.moments| && woke.current in e.t.moments[i].gens && woke.archive in e.t.moments[i].archives
    case During(i, _) =>
      && i < |e.t.goals| && i < |e.t.moments|
      && woke.current in e.t.moments[i].gens + {e.t.goals[i].current}
      && woke.archive in e.t.moments[i].archives + {e.t.goals[i].archive}
    case _ => woke == e.woke
  }

  /** Every platter of an epoch is one where the power may fail. */
  lemma {:induction false} EveryPlatter(e: Epoch, capacity: nat, h: nat, n: nat) returns (cut: Cut)
    requires EpochOk(e, capacity) && n <= |e.t.goals| && h < e.t.marks[n]
    ensures cut == Mounting(h) || (cut.During? && cut.at == h)
    ensures h < |e.history| && forall img :: IsImage(e.history[h], img) ==> Leaves(e.(cut := cut), img)
    decreases n
  {
    hide IsImage, MountsInto, CrashesInto, Link, Attempt, Rests, Concluded, Smooth;
    if n == 0 {
      cut := Mounting(h);
    } else {
      assert Segment(e.history, e.t.marks[n - 1], e.t.marks[n], capacity, e.t.moments[n - 1], e.t.goals[n - 1]);
      if h < e.t.marks[n - 1] {
        cut := EveryPlatter(e, capacity, h, n - 1);
      } else {
        cut := During(n - 1, h);
      }
    }
  }

  lemma CrashChooses(p: Platter, capacity: nat, gens: set<Generation>, archives: set<Archive>, img: seq<Record>) returns (woke: Goal)
    requires CrashesInto(p, capacity, gens, archives) && IsImage(p, img)
    ensures woke.current in gens && woke.archive in archives
    ensures |img| >= FIRST_ALLOCATABLE && MountsInto(img, capacity, woke.current, woke.archive)
  {
    hide MountsInto;
    assert |img| >= FIRST_ALLOCATABLE;
    var g, archive :| g in gens && archive in archives && MountsInto(img, capacity, g, archive);
    woke := Goal(g, archive);
  }

  /** Every image a power failure may leave mounts into something the epoch accounts for. */
  lemma CrashWakes(e: Epoch, capacity: nat, img: seq<Record>) returns (woke: Goal)
    requires EpochOk(e, capacity) && Leaves(e, img)
    ensures WakesAs(e, woke) && |img| >= FIRST_ALLOCATABLE && MountsInto(img, capacity, woke.current, woke.archive)
  {
    hide IsImage, MountsInto, CrashesInto, Link, Attempt, Concluded, Smooth, Woken;
    match e.cut
    case Asleep => woke := e.woke;
    case Mounting(at) =>
      woke := CrashChooses(e.history[at], capacity, {e.woke.current}, {e.woke.archive}, img);
    case Resting(i) =>
      assert Rests(e.t.rests[i], capacity, e.t.moments[i]);
      woke := CrashChooses(e.t.rests[i], capacity, e.t.moments[i].gens, e.t.moments[i].archives, img);
    case During(i, at) =>
      assert Segment(e.history, e.t.marks[i], e.t.marks[i + 1], capacity, e.t.moments[i], e.t.goals[i]);
      woke := CrashChooses(e.history[at], capacity, e.t.moments[i].gens + {e.t.goals[i].current},
                           e.t.moments[i].archives + {e.t.goals[i].archive}, img);
  }

  // ---- Lives -----------------------------------------------------------------------------------------

  ghost predicate Follows(e: Epoch, next: Epoch) {
    Leaves(e, next.image) && WakesAs(e, next.woke)
  }

  /** Each epoch begins with an image the one before left. */
  ghost predicate IsLife(life: seq<Epoch>, capacity: nat) {
    && (forall n :: 0 <= n < |life| ==> EpochOk(life[n], capacity))
    && (forall n :: 0 <= n < |life| - 1 ==> Follows(life[n], life[n + 1]))
  }

  /** One epoch: the power comes back, and operations run. */
  method Live(img: seq<Record>, capacity: nat, cacheCapacity: nat, faults: nat -> Fault, ops: seq<Op>, ghost woke: Goal)
    returns (store: ObjectStore, oks: seq<bool>, ghost e: Epoch)
    requires |img| >= FIRST_ALLOCATABLE && MountsInto(img, capacity, woke.current, woke.archive)
    requires capacity != 0 && HEADER_SIZE <= cacheCapacity
    ensures EpochOk(e, capacity) && e.image == img && e.woke == woke && e.ops == ops && e.faults == faults && e.cut == Asleep
    ensures fresh(store) && store.Valid() && e.history == store.device.history && e.t.oks == oks
    ensures !store.recoveryRequired ==> Serving(store) && |e.t.moments| == |ops| + 1 && e.t.moments[|ops|] == Now(store)
    ensures Smooth(faults, 0, |e.history|) ==> !store.recoveryRequired
  {
    hide MountsInto, CrashesInto, IsTrace, Feasible;
    hide ObjectStore.Valid;
    var ok;
    store, ok := PowerCycle(img, capacity, cacheCapacity, faults, woke.current, woke.archive);
    ghost var h := store.device.history;
    oks, e := [], Epoch(img, woke, ops, Trace([], [], [], [|h|], []), h, faults, Asleep);
    NoTrace(ops, h, capacity, faults);
    if ok {
      ghost var t;
      oks, t := Run(store, ops);
      TraceLengths(t, ops, store.device.history, capacity, faults);
      e := Epoch(img, woke, ops, t, store.device.history, faults, Asleep);
    }
  }

  lemma NoTrace(ops: seq<Op>, history: seq<Platter>, capacity: nat, faults: nat -> Fault)
    ensures IsTrace(Trace([], [], [], [|history|], []), ops, history, capacity, faults)
  {
  }

  /**
   * Goes on after a power failure at any point of the last epoch, with any image it may leave: the
   * longer life is a life. So whatever holds of lives holds of every store that was run, lost
   * power, and was run again, any number of times.
   */
  method LiveOn(ghost life: seq<Epoch>, ghost cut: Cut, img: seq<Record>, capacity: nat, cacheCapacity: nat, faults: nat -> Fault,
                ops: seq<Op>)
    returns (store: ObjectStore, oks: seq<bool>, ghost longer: seq<Epoch>)
    requires life != [] && IsLife(life, capacity) && Leaves(life[|life| - 1].(cut := cut), img)
    requires capacity != 0 && HEADER_SIZE <= cacheCapacity
    ensures IsLife(longer, capacity) && |longer| == |life| + 1 && longer[..|life| - 1] == life[..|life| - 1]
    ensures longer[|life| - 1] == life[|life| - 1].(cut := cut)
    ensures var e := longer[|life|];
            && e.image == img && e.ops == ops && e.faults == faults && e.history == store.device.history && e.t.oks == oks
            && (!store.recoveryRequired ==> Serving(store) && |e.t.moments| == |ops| + 1 && e.t.moments[|ops|] == Now(store))
            && (Smooth(faults, 0, |e.history|) ==> !store.recoveryRequired)
  {
    hide EpochOk, Leaves, WakesAs, MountsInto, Feasible;
    hide ObjectStore.Valid;
    ghost var n := |life| - 1;
    ghost var last := life[n].(cut := cut);
    CutAnywhere(life[n], cut, capacity);
    ghost var woke := CrashWakes(last, capacity, img);
    ghost var e;
    store, oks, e := Live(img, capacity, cacheCapacity, faults, ops, woke);
    longer := life[..n] + [last] + [e];
    LongerLife(life, last, e, capacity);
  }

  lemma CutAnywhere(e: Epoch, cut: Cut, capacity: nat)
    requires EpochOk(e, capacity)
    ensures EpochOk(e.(cut := cut), capacity)
  {
    hide IsTrace, MountsInto, CrashesInto;
  }

  lemma LongerLife(life: seq<Epoch>, last: Epoch, e: Epoch, capacity: nat)
    requires life != [] && IsLife(life, capacity) && last == life[|life| - 1].(cut := last.cut)
    requires EpochOk(last, capacity) && EpochOk(e, capacity) && Follows(last, e)
    ensures IsLife(life[..|life| - 1] + [last] + [e], capacity)
  {
    hide EpochOk, Leaves, WakesAs;
    var n, longer := |life| - 1, life[..|life| - 1] + [last] + [e];
    forall k | 0 <= k < |longer| - 1
      ensures Follows(longer[k], longer[k + 1])
    {
      if k < n {
        assert Follows(life[k], life[k + 1]);
      }
    }
  }

  // ---- Snapshots ----------------------------------------------------------------------------------------

  /** The power was still on at this moment of the epoch. */
  ghost predicate Reached(e: Epoch, i: nat) {
    match e.cut
    case Resting(j) => i <= j
    case During(j, _) => i <= j
    case _ => false
  }

  /** No operation that was begun from then on dropped the snapshot. */
  ghost predicate Undropped(e: Epoch, from: nat, id: nat) {
    forall k :: from <= k < |e.ops| && (Reached(e, k + 1) || (e.cut.During? && e.cut.op == k)) ==> e.ops[k] != DropSnapshot(id)
  }

  ghost predicate Archives(woke: Goal, id: nat, g: Generation) {
    id in woke.archive && woke.archive[id] == g
  }

  /** A snapshot kept at a moment the power saw is found when it comes back. */
  lemma WakeKeeps(e: Epoch, capacity: nat, i: nat, id: nat, g: Generation, woke: Goal)
    requires EpochOk(e, capacity) && i < |e.t.moments| && Kept(e.t.moments[i], id, g)
    requires Reached(e, i) && Undropped(e, i, id) && WakesAs(e, woke)
    ensures Archives(woke, id, g)
  {
    hide MountsInto, CrashesInto, PutOutcome, DeleteOutcome, Link, Segment, Rests, Concluded, Smooth, Woken;
    var j := if e.cut.Resting? then e.cut.before else e.cut.op;
    forall k | i <= k < j
      ensures e.ops[k] != DropSnapshot(id)
    {
      assert Reached(e, k + 1);
    }
    SnapshotSurvives(e.t, e.ops, e.history, capacity, e.faults, i, j, id, g);
    if e.cut.During? {
      assert Attempt(e.ops[j], e.t.moments[j], e.t.goals[j].current, e.t.goals[j].archive);
    }
  }

  lemma {:induction false} WokenKeeps(life: seq<Epoch>, capacity: nat, m: nat, n: nat, id: nat, g: Generation)
    requires IsLife(life, capacity) && m <= n < |life| && Archives(life[m].woke, id, g)
    requires forall x :: m <= x < n ==> Undropped(life[x], 0, id)
    ensures Archives(life[n].woke, id, g)
    decreases n - m
  {
    hide EpochOk, Undropped, Leaves, Archives;
    if m < n {
      assert Follows(life[m], life[m + 1]) && EpochOk(life[m], capacity);
      PassesOn(life[m], capacity, id, g, life[m + 1].woke);
      WokenKeeps(life, capacity, m + 1, n, id, g);
    }
  }

  lemma PassesOn(e: Epoch, capacity: nat, id: nat, g: Generation, woke: Goal)
    requires EpochOk(e, capacity) && Archives(e.woke, id, g) && Undropped(e, 0, id) && WakesAs(e, woke)
    ensures Archives(woke, id, g)
  {
    hide MountsInto, CrashesInto, IsTrace, Undropped;
    if e.cut.Resting? || e.cut.During? {
      WakeKeeps(e, capacity, 0, id, g, woke);
    }
  }

  /**
   * A snapshot outlives power failures: kept at some moment of some epoch while the power was on,
   * it is kept at every moment of every later epoch, unless an operation that was begun in between
   * dropped it.
   */
  lemma SnapshotOutlives(life: seq<Epoch>, capacity: nat, m: nat, i: nat, n: nat, j: nat, id: nat, g: Generation)
    requires IsLife(life, capacity) && m < n < |life|
    requires i < |life[m].t.moments| && Kept(life[m].t.moments[i], id, g) && Reached(life[m], i) && Undropped(life[m], i, id)
    requires forall x :: m < x < n ==> Undropped(life[x], 0, id)
    requires j < |life[n].t.moments| && j <= |life[n].ops| && forall k :: 0 <= k < j ==> life[n].ops[k] != DropSnapshot(id)
    ensures Kept(life[n].t.moments[j], id, g)
  {
    hide Leaves, IsTrace, MountsInto, CrashesInto, Undropped, WakesAs, Reached;
    assert Follows(life[m], life[m + 1]);
    WakeKeeps(life[m], capacity, i, id, g, life[m + 1].woke);
    WokenKeeps(life, capacity, m + 1, n, id, g);
    assert EpochOk(life[n], capacity);
    SnapshotSurvives(life[n].t, life[n].ops, life[n].history, capacity, life[n].faults, 0, j, id, g);
  }

  /** And rolling back to it there restores exactly what it named. */
  lemma RollbackOutlives(life: seq<Epoch>, capacity: nat, m: nat, i: nat, n: nat, j: nat, id: nat, g: Generation)
    requires IsLife(life, capacity) && m < n < |life|
    requires i < |life[m].t.moments| && Kept(life[m].t.moments[i], id, g) && Reached(life[m], i) && Undropped(life[m], i, id)
    requires forall x :: m < x < n ==> Undropped(life[x], 0, id)
    requires j + 1 < |life[n].t.moments| && j < |life[n].ops| && j < |life[n].t.oks|
    requires forall k :: 0 <= k < j ==> life[n].ops[k] != DropSnapshot(id)
    requires life[n].ops[j] == Rollback(id) && life[n].t.oks[j]
    ensures life[n].t.moments[j + 1].current == g
  {
    hide IsLife, Kept, Undropped, Reached;
    SnapshotOutlives(life, capacity, m, i, n, j, id, g);
    LifeTrace(life, capacity, n);
    RollbackRestores(life[n].t, life[n].ops, life[n].history, capacity, life[n].faults, j, j, id, g);
  }

  lemma LifeTrace(life: seq<Epoch>, capacity: nat, n: nat)
    requires IsLife(life, capacity) && n < |life|
    ensures IsTrace(life[n].t, life[n].ops, life[n].history, capacity, life[n].faults)
  {
    hide IsTrace, MountsInto, CrashesInto, Follows;
    assert EpochOk(life[n], capacity);
  }
}
