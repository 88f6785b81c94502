/** Whole histories of reads, writes and rollbacks through the cache. */
module CacheRuns {
  import opened ObjectIds
  import opened ObjectTables
  import opened Layout
  import opened BlockDevice
  import opened Recovery
  import opened Bitmap
  import opened Requests
  import opened Generations
  import opened ObjectStores
  import opened Cache
  import opened CachedStores

  datatype Call =
    | Store(requests: seq<PutRequest>)
    | Erase(id: ObjectId)
    | Read(id: ObjectId)
    | Snap
    | Unsnap(snapshot: nat)
    | Roll(snapshot: nat)
    | Collect

  /** What the sectors of an object read as. */
  ghost function Cold(g: Generation, id: ObjectId): Option<Reading>
    requires |g.blocks| == |g.entries|
  {
    var o := Lookup(g, id);
    if o.Some? && AllData(o.value.blocks) && IsObject(Joined(o.value.blocks)) then Some(ReadingOf(Joined(o.value.blocks)))
    else None
  }

  /** There is such an object and the transfer buffer can take it. */
  ghost predicate Readable(g: Generation, id: ObjectId, cacheCapacity: nat)
    requires |g.blocks| == |g.entries|
  {
    !IsZero(id) && Lookup(g, id).Some? && FitsBuffer(|Lookup(g, id).value.blocks|, cacheCapacity)
  }

  datatype Answer = Found(reading: Option<Reading>) | Done(ok: bool)

  /** What the disk serves and archives, and what the cache holds. */
  datatype Scene = Scene(current: Generation, archive: Archive, entries: seq<Cached>)

  ghost predicate Up(cs: CachedStore)
    reads cs, cs.store, cs.store.device, cs.store.allocator.bits, cs.cache, cs.cache.arena
  {
    && cs.Valid() && !cs.store.recoveryRequired
    && cs.store.Here() in cs.store.held && SnapshotsHeld(cs.store.snapshots, cs.store.held)
  }

  ghost function SceneOf(cs: CachedStore): Scene
    requires Up(cs)
    reads cs, cs.store, cs.store.device, cs.store.allocator.bits, cs.cache, cs.cache.arena
  {
    Scene(cs.store.Current(), cs.store.Archive(), cs.cache.Entries())
  }

  /** From one state of the disk to the next: a call took effect or not, as reported. */
  ghost predicate Effected(call: Call, s: Scene, answer: Answer, after: Scene) {
    if call.Read? then answer.Found? && after.current == s.current && after.archive == s.archive
    else
      && answer.Done?
      && if !answer.ok then after.current == s.current && after.archive == s.archive
         else match call
           case Store(requests) => PutOutcome(s.current, requests, after.current) && after.archive == s.archive
           case Erase(id) => DeleteOutcome(s.current, id, after.current) && after.archive == s.archive
           case Snap => after.current == s.current && exists k: nat :: k !in s.archive && after.archive == s.archive[k := s.current]
           case Unsnap(k) => after.current == s.current && k in s.archive && after.archive == s.archive - {k}
           case Roll(k) => k in s.archive && after.current == s.archive[k] && after.archive == s.archive
           case _ => after.current == s.current && after.archive == s.archive
  }

  /** A read gave what the disk holds. */
  ghost predicate Exact(call: Call, g: Generation, answer: Answer, cacheCapacity: nat) {
    call.Read? ==>
      && |g.blocks| == |g.entries| && answer.Found?
      && (answer.reading.Some? ==> answer.reading == Cold(g, call.id))
      && (Readable(g, call.id, cacheCapacity) ==> answer.reading.Some?)
  }

  /** The cache takes the object of a batch of one. */
  predicate Refreshing(requests: seq<PutRequest>, arena: nat) {
    |requests| == 1 && Span(HEADER_SIZE + |requests[0].payload|) <= arena
  }

  /** The call hands out a version that is still around with another content. */
  ghost predicate Muddles(call: Call, s: Scene, answer: Answer, arena: nat) {
    && call.Store? && answer == Done(true)
    && ((!Refreshing(call.requests, arena) && Collides(s.entries, s.current, call.requests))
        || Reissued(s.archive, s.current, call.requests))
  }

  /** One call. */
  method Serve(cs: CachedStore, call: Call) returns (answer: Answer)
    requires Up(cs)
    modifies cs.store, cs.store.device, cs.store.allocator.bits, cs.cache, cs.cache.arena
    ensures cs.Valid()
    ensures !cs.store.recoveryRequired ==>
              && Up(cs) && Effected(call, old(SceneOf(cs)), answer, SceneOf(cs))
              && (old(cs.Truthful()) ==> Exact(call, old(cs.store.Current()), answer, cs.store.cacheCapacity))
              && (old(cs.Unrolled()) && !call.Roll? ==> cs.Unrolled())
              && (old(cs.Unambiguous()) ==>
                    (cs.Unambiguous() <==> !Muddles(call, old(SceneOf(cs)), answer, cs.cache.arena.Length)))
    ensures cs.store.recoveryRequired ==> call.Store? || call.Erase? || call.Roll?
  {
    hide Lookup, Right, IsObject, Joined, PutOutcome, DeleteOutcome, CrashTail, ArchivesOf, ArchiveOf, SnapshotsHeld, Collides,
         Coherent, Behind, Without, Tiles, View, AllData, AllFit, FitAll, Needs, StageAll, MergeAll, EntriesOf, Stageable, Clear, Reissued;
    hide ObjectStore.Valid;
    cs.Known();
    match call {
      case Store(requests) =>
        var result;
        ghost var post;
        result, post := cs.Put(requests);
        answer := Done(result.Committed?);
      case Erase(id) =>
        var ok;
        ghost var post;
        ok, post := cs.Delete(id);
        answer := Done(ok);
      case Read(id) =>
        var reading := cs.Get(id);
        answer := Found(reading);
      case Roll(snapshot) =>
        var ok := cs.Rollback(snapshot);
        answer := Done(ok);
      case _ =>
        answer := ServeArchive(cs, call);
    }
    if !cs.store.recoveryRequired {
      cs.Known();
      cs.ArchiveKnown();
    }
  }

  /** A call that leaves the generation in force and the cache alone. */
  method ServeArchive(cs: CachedStore, call: Call) returns (answer: Answer)
    requires Up(cs) && (call.Snap? || call.Unsnap? || call.Collect?)
    modifies cs.store, cs.store.device, cs.store.allocator.bits
    ensures Up(cs) && Effected(call, old(SceneOf(cs)), answer, SceneOf(cs)) && answer.Done?
    ensures cs.store.Current() == old(cs.store.Current()) && cs.cache.Entries() == old(cs.cache.Entries())
    ensures old(cs.Truthful()) ==> cs.Truthful()
    ensures old(cs.Unrolled()) ==> cs.Unrolled()
    ensures old(cs.Unambiguous()) ==> cs.Unambiguous()
  {
    hide Lookup, Right, PutOutcome, DeleteOutcome, CrashTail, ArchivesOf, ArchiveOf, SnapshotsHeld, Coherent, Behind, Tiles, View, Clear,
         AllObjects;
    hide ObjectStore.Valid;
    ghost var s, clear := SceneOf(cs), cs.Unambiguous();
    var ok;
    if call.Snap? {
      var id;
      ok, id := cs.store.SnapshotCreate();
      if ok && clear {
        ClearSnapshot(s.entries, s.current, s.archive, id);
      }
    } else if call.Unsnap? {
      ok := cs.store.SnapshotDiscard(call.snapshot);
      if ok && clear {
        ClearSnapshot(s.entries, s.current, s.archive, call.snapshot);
      }
    } else {
      ok := cs.store.Collect();
    }
    cs.Known();
    cs.ArchiveKnown();
    answer := Done(ok);
  }

  /** No slot runs ahead of the table. */
  ghost predicate Tidy(s: Scene) {
    |s.current.blocks| == |s.current.entries| && Sorted(s.current.entries) && Behind(s.entries, s.current)
  }

  /** None of the first calls goes back. */
  ghost predicate Onward(calls: seq<Call>, n: nat) {
    forall j :: 0 <= j < n && j < |calls| ==> !calls[j].Roll?
  }

  /** None of the first calls muddles versions. */
  ghost predicate Unmuddled(calls: seq<Call>, scenes: seq<Scene>, answers: seq<Answer>, n: nat, arena: nat) {
    forall j :: 0 <= j < n && j < |calls| && j < |scenes| && j < |answers| ==> !Muddles(calls[j], scenes[j], answers[j], arena)
  }

  /**
   * Every history, rollbacks included: `scenes[i]` precedes call `i`, and each call has the effect
   * it reports. Each answered read gives exactly what the disk holds at that moment as long as no
   * call before it went back, or none handed out a version still around with another content.
   */
  method ServeAll(cs: CachedStore, calls: seq<Call>) returns (answers: seq<Answer>, ghost scenes: seq<Scene>)
    requires Up(cs)
    modifies cs.store, cs.store.device, cs.store.allocator.bits, cs.cache, cs.cache.arena
    ensures cs.Valid() && |answers| <= |calls| && |answers| <= |scenes| <= |answers| + 1
    ensures scenes != [] && scenes[0] == old(SceneOf(cs))
    ensures forall i :: 0 <= i < |scenes| - 1 ==> Effected(calls[i], scenes[i], answers[i], scenes[i + 1])
    ensures forall i :: 0 <= i < |scenes| - 1
                        && (|| (old(cs.Unrolled()) && Onward(calls, i))
                            || (old(cs.Unambiguous()) && Unmuddled(calls, scenes, answers, i, cs.cache.arena.Length))) ==>
              Exact(calls[i], scenes[i].current, answers[i], cs.store.cacheCapacity)
    ensures forall i :: 0 <= i < |scenes| && old(cs.Unrolled()) && Onward(calls, i) ==> Tidy(scenes[i])
    ensures !cs.store.recoveryRequired ==>
              |answers| == |calls| && |scenes| == |calls| + 1 && Up(cs) && scenes[|calls|] == SceneOf(cs)
    ensures cs.store.recoveryRequired ==>
              |answers| == |scenes| && (var last := calls[|answers| - 1]; last.Store? || last.Erase? || last.Roll?)
  {
    hide Cold, InArena, Effected, Exact, Muddles, Clear, Coherent, Tidy, SnapshotsHeld, ArchiveOf, Unmuddled;
    hide CachedStore.Valid, CachedStore.Unrolled;
    ClearIsTruthful(cs);
    ghost var unrolled, clear := cs.Unrolled(), cs.Unambiguous();
    answers, scenes := [], [SceneOf(cs)];
    while |answers| < |calls|
      invariant Up(cs) && |answers| <= |calls| && |scenes| == |answers| + 1
      invariant scenes[|answers|] == SceneOf(cs) && scenes[0] == old(SceneOf(cs))
      invariant forall i :: 0 <= i < |answers| ==> Effected(calls[i], scenes[i], answers[i], scenes[i + 1])
      invariant unrolled && Onward(calls, |answers|) ==> cs.Unrolled()
      invariant forall i :: 0 <= i < |scenes| && unrolled && Onward(calls, i) ==> Tidy(scenes[i])
      invariant clear && Unmuddled(calls, scenes, answers, |answers|, cs.cache.arena.Length) ==> cs.Unambiguous()
      invariant forall i :: 0 <= i < |answers|
                            && (|| (unrolled && Onward(calls, i))
                                || (clear && Unmuddled(calls, scenes, answers, i, cs.cache.arena.Length))) ==>
                  Exact(calls[i], scenes[i].current, answers[i], cs.store.cacheCapacity)
    {
      ClearIsTruthful(cs);
      var answer := Serve(cs, calls[|answers|]);
      UnmuddledGrows(calls, scenes, answers, answer, cs.cache.arena.Length);
      answers := answers + [answer];
      if cs.store.recoveryRequired {
        assert scenes + [] == scenes;
        return;
      }
      ClearIsTruthful(cs);
      scenes := scenes + [SceneOf(cs)];
    }
  }

  lemma UnmuddledGrows(calls: seq<Call>, scenes: seq<Scene>, answers: seq<Answer>, answer: Answer, arena: nat)
    requires |answers| < |calls| && |scenes| == |answers| + 1
    ensures forall more :: Unmuddled(calls, scenes + more, answers + [answer], |answers| + 1, arena) <==>
              Unmuddled(calls, scenes, answers, |answers|, arena) && !Muddles(calls[|answers|], scenes[|answers|], answer, arena)
    ensures forall i, more :: 0 <= i <= |answers| ==>
              (Unmuddled(calls, scenes + more, answers + [answer], i, arena) <==> Unmuddled(calls, scenes, answers, i, arena))
  {
    hide Muddles;
  }

  lemma ClearIsTruthful(cs: CachedStore)
    requires Up(cs)
    ensures cs.Unambiguous() ==> cs.Truthful()
    ensures cs.Unrolled() ==> cs.Truthful() && Tidy(SceneOf(cs))
  {
    hide Coherent, Lookup, SnapshotsHeld, ArchiveOf, Sorted, Behind;
    hide ObjectStore.Valid;
    cs.Known();
  }

  /** An empty cache over a store without snapshots is where every history may begin. */
  lemma BeginsUnambiguous(cs: CachedStore)
    requires Up(cs) && cs.cache.Entries() == [] && cs.store.Archive() == map[]
    ensures cs.Unambiguous() && cs.Unrolled() && Ahead(cs.store.Current(), cs.store.Archive())
  {
    hide Lookup, SnapshotsHeld, ArchiveOf;
    hide ObjectStore.Valid;
    cs.Known();
    AgreeSelf(cs.store.Current());
  }

  // ---- Histories in which versions only rise -----------------------------------------------------

  /** Every archived object is still there, at that version or a later one. */
  ghost predicate Ahead(g: Generation, archive: Archive) {
    && |g.blocks| == |g.entries|
    && forall k :: k in archive ==> Before(archive[k], g)
  }

  ghost predicate Before(h: Generation, g: Generation)
    requires |g.blocks| == |g.entries|
  {
    && |h.blocks| == |h.entries|
    && forall id :: Lookup(h, id).Some? ==> Lookup(g, id).Some? && Lookup(h, id).value.version <= Lookup(g, id).value.version
  }

  lemma PutRises(h: Generation, pre: Generation, requests: seq<PutRequest>, post: Generation)
    requires PutOutcome(pre, requests, post) && Before(h, pre) && Sorted(pre.entries)
    ensures Before(h, post)
  {
    hide Lookup, BlocksFor, Sorted, NextVersion;
    forall id | Lookup(h, id).Some?
      ensures Lookup(post, id).Some? && Lookup(h, id).value.version <= Lookup(post, id).value.version
    {
      VersionOfLookup(pre, id);
      if i :| 0 <= i < |requests| && requests[i].id == id {
      } else {
        assert Lookup(post, id) == Lookup(pre, id);
      }
    }
  }

  /** Without erasing or going back, archived versions stay behind. */
  lemma StepStaysAhead(call: Call, s: Scene, answer: Answer, after: Scene)
    requires Effected(call, s, answer, after) && !call.Roll? && !call.Erase? && Ahead(s.current, s.archive) && Sorted(s.current.entries)
    ensures Ahead(after.current, after.archive)
  {
    hide Lookup, Sorted, Before, PutOutcome;
    BeforeSelf(s.current);
    if call.Store? && answer.ok {
      PutSizes(s.current, call.requests, after.current);
      forall k | k in s.archive
        ensures Before(s.archive[k], after.current)
      {
        PutRises(s.archive[k], s.current, call.requests, after.current);
      }
    }
  }

  lemma BeforeSelf(g: Generation)
    requires |g.blocks| == |g.entries|
    ensures Before(g, g)
  {
    hide Lookup;
  }

  lemma {:induction false} StaysAhead(calls: seq<Call>, scenes: seq<Scene>, answers: seq<Answer>, n: nat)
    requires n < |scenes| && n <= |calls| && n <= |answers|
    requires forall i :: 0 <= i < n ==> Effected(calls[i], scenes[i], answers[i], scenes[i + 1])
    requires forall i :: 0 <= i < n ==> !calls[i].Roll? && !calls[i].Erase? && Tidy(scenes[i])
    requires Ahead(scenes[0].current, scenes[0].archive)
    ensures Ahead(scenes[n].current, scenes[n].archive)
    decreases n
  {
    hide Effected, Ahead, Behind, Sorted;
    if n > 0 {
      StaysAhead(calls, scenes, answers, n - 1);
      StepStaysAhead(calls[n - 1], scenes[n - 1], answers[n - 1], scenes[n]);
    }
  }

  /** Then a put always gets a version that is nowhere else. */
  lemma AheadNeverMuddles(call: Call, s: Scene, answer: Answer, arena: nat)
    requires Tidy(s) && Ahead(s.current, s.archive)
    ensures !Muddles(call, s, answer, arena)
  {
    hide Lookup, Right, Alike, BlocksFor, Sorted, NextVersion;
    if call.Store? {
      forall c, i | c in s.entries && 0 <= i < |call.requests| && c.id == call.requests[i].id
        ensures c.version != NextVersion(s.current.entries, c.id)
      {
        VersionOfLookup(s.current, c.id);
      }
      forall k, i | k in s.archive && 0 <= i < |call.requests|
        ensures !HandsOutAgain(s.archive[k], s.current, call.requests[i])
      {
        VersionOfLookup(s.current, call.requests[i].id);
        assert Before(s.archive[k], s.current);
      }
    }
  }

  /**
   * A history that never erased nor went back has muddled nothing: from then on any rollback
   * leaves the cache truthful.
   */
  lemma OnwardIsUnmuddled(calls: seq<Call>, scenes: seq<Scene>, answers: seq<Answer>, n: nat, arena: nat)
    requires n < |scenes| && n <= |calls| && n <= |answers|
    requires forall i :: 0 <= i < n ==> Effected(calls[i], scenes[i], answers[i], scenes[i + 1])
    requires forall i :: 0 <= i < n ==> !calls[i].Roll? && !calls[i].Erase? && Tidy(scenes[i])
    requires Ahead(scenes[0].current, scenes[0].archive)
    ensures Unmuddled(calls, scenes, answers, n, arena)
  {
    hide Effected, Ahead, Tidy, Muddles;
    forall i | 0 <= i < n
      ensures !Muddles(calls[i], scenes[i], answers[i], arena)
    {
      StaysAhead(calls, scenes, answers, i);
      AheadNeverMuddles(calls[i], scenes[i], answers[i], arena);
    }
  }
}
