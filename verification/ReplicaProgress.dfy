/**
 * When replicas meet: from whatever state losses, crashes and edits left behind, a grant can be
 * brought into force and both sides can merge, unless the merge itself is refused; and then
 * nothing but another edit can ever change either side.
 */
module ReplicaProgress {
  import opened ObjectIds
  import opened Crdts
  import opened Replicas
  import opened ReplicaSafety
  import opened ReplicaTheorems
  import opened ReplicaNodes

  // ---- Reaching --------------------------------------------------------------------------------

  ghost predicate Reaches(s: System, t: System) {
    exists turns :: Run(s, turns) == t
  }

  lemma Stays(s: System)
    ensures Reaches(s, s)
  {
    assert Run(s, []) == s;
  }

  lemma ReachesNext(s: System, t: System, turn: Turn)
    requires Reaches(s, t)
    ensures Reaches(s, Take(t, turn))
  {
    hide Take;
    var turns :| Run(s, turns) == t;
    assert (turns + [turn])[..|turns|] == turns;
    assert Run(s, turns + [turn]) == Take(t, turn);
  }

  lemma {:induction false} RunAppends(s: System, first: seq<Turn>, second: seq<Turn>)
    ensures Run(s, first + second) == Run(Run(s, first), second)
    decreases |second|
  {
    hide Take;
    if second == [] {
      assert first + second == first;
    } else {
      var n := |second| - 1;
      assert (first + second)[..|first| + n] == first + second[..n];
      RunAppends(s, first, second[..n]);
    }
  }

  lemma ReachesFurther(s: System, t: System, u: System)
    requires Reaches(s, t) && Reaches(t, u)
    ensures Reaches(s, u)
  {
    hide Run;
    var first :| Run(s, first) == t;
    var second :| Run(t, second) == u;
    RunAppends(s, first, second);
  }

  function Mirrored(turns: seq<Turn>): seq<Turn> {
    seq(|turns|, i requires 0 <= i < |turns| => turns[i].(here := !turns[i].here))
  }

  lemma {:induction false} RunMirrored(s: System, turns: seq<Turn>)
    ensures Run(Swap(s), Mirrored(turns)) == Swap(Run(s, turns))
    decreases |turns|
  {
    hide Step;
    if turns != [] {
      var n := |turns| - 1;
      assert Mirrored(turns)[..n] == Mirrored(turns[..n]);
      RunMirrored(s, turns[..n]);
    }
  }

  lemma ReachesMirrored(s: System, t: System)
    requires Reaches(Swap(s), t)
    ensures Reaches(s, Swap(t))
  {
    hide Run;
    var turns :| Run(Swap(s), turns) == t;
    RunMirrored(Swap(s), turns);
  }

  lemma TakeKeeps(s: System, turn: Turn)
    requires Inv(s)
    ensures Inv(Take(s, turn))
  {
    hide Inv, Step;
    if turn.here {
      EventKeeps(s, turn.event);
    } else {
      SwapKeeps(s);
      EventKeeps(Swap(s), turn.event);
      SwapKeeps(Step(Swap(s), turn.event));
    }
  }

  lemma {:induction false} RunKeeps(s: System, turns: seq<Turn>)
    requires Inv(s)
    ensures Inv(Run(s, turns))
    decreases |turns|
  {
    hide Inv, Take;
    if turns != [] {
      RunKeeps(s, turns[..|turns| - 1]);
      TakeKeeps(Run(s, turns[..|turns| - 1]), turns[|turns| - 1]);
    }
  }

  lemma ReachedIsSafe(s: System, t: System)
    requires Inv(s) && Reaches(s, t)
    ensures Inv(t)
  {
    hide Inv, Run;
    var turns :| Run(s, turns) == t;
    RunKeeps(s, turns);
  }

  lemma ReachedIsReachable(s: System, t: System)
    requires Reachable(s) && Reaches(s, t)
    ensures Reachable(t)
  {
    hide Run, Fresh;
    var start, first :| Fresh(start) && s == Run(start, first);
    var second :| Run(s, second) == t;
    RunAppends(start, first, second);
  }

  // ---- The rotation reaches every place ----------------------------------------------------------

  /** How far ahead a place is. */
  function Distance(p: nat, goal: nat, size: nat): nat
    requires p < size && goal < size
  {
    if goal >= p then goal - p else goal + size - p
  }

  ghost predicate Rotating(n: Node) {
    !n.halted && MemoryOk(n) && n.cursor < |n.catalog| && AllSummable(n)
  }

  /** Apart from where its rotation is, nothing changed. */
  ghost predicate SameButCursor(n: Node, after: Node) {
    && after == n.(cursor := after.cursor, sendGrant := after.sendGrant)
    && after.cursor < |n.catalog|
  }

  lemma SameSummable(n: Node, after: Node)
    requires AllSummable(n) && SameButCursor(n, after)
    ensures AllSummable(after)
  {
    hide Valid;
    assert forall s: Scope :: Summable(after, s) == Summable(n, s);
  }

  /** The rotation never passes over a place that has something to say. */
  lemma {:induction false} RotateApproaches(n: Node, tries: nat, goal: nat)
    requires Rotating(n) && goal < 2 * |n.catalog| && PacketAt(n, goal).Some?
    requires Distance(Position(n), goal, 2 * |n.catalog|) < tries
    ensures var (next, packet) := Rotate(n, tries);
            && packet.Some? && !packet.value.Update? && SameButCursor(n, next)
            && (packet == PacketAt(n, goal)
                || Distance(Position(next), goal, 2 * |n.catalog|) < Distance(Position(n), goal, 2 * |n.catalog|))
    decreases tries
  {
    hide LoadState, Valid;
    AdvancedPosition(n);
    assert Summable(n, n.catalog[n.cursor]);
    if PacketAt(n, Position(n)).None? {
      SameSummable(n, Advanced(n));
      SamePackets(n, Advanced(n), goal);
      RotateApproaches(Advanced(n), tries - 1, goal);
    }
  }

  /** What a node has to say at any place, it says after enough turns. */
  lemma {:induction false} SaysEverything(s: System, goal: nat) returns (t: System)
    requires Rotating(s.n) && goal < 2 * |s.n.catalog| && PacketAt(s.n, goal).Some?
    ensures Reaches(s, t) && SameButCursor(s.n, t.n) && t == s.(n := t.n, out := t.out)
    ensures s.out <= t.out && PacketAt(s.n, goal).value in t.out
    ensures forall m :: m in t.out && m !in s.out ==> !m.Update?
    decreases Distance(Position(s.n), goal, 2 * |s.n.catalog|)
  {
    hide Run, Reaches, PacketAt, Rotate, AllSummable;
    Stays(s);
    ReachesNext(s, s, Turn(true, Sends));
    t := Take(s, Turn(true, Sends));
    RotateApproaches(s.n, 2 * |s.n.catalog|, goal);
    if NextPacket(s.n).1 != PacketAt(s.n, goal) {
      SameSummable(s.n, t.n);
      SamePackets(s.n, t.n, goal);
      var u := SaysEverything(t, goal);
      ReachesFurther(s, t, u);
      t := u;
    }
  }

  lemma SamePackets(n: Node, after: Node, goal: nat)
    requires SameButCursor(n, after) && goal < 2 * |n.catalog|
    ensures PacketAt(after, goal) == PacketAt(n, goal)
  {
  }

  lemma InvRotates(s: System)
    requires Inv(s) && !s.n.halted && s.n.cursor < |s.n.catalog|
    ensures Rotating(s.n)
  {
    hide Valid, Known, FindScope;
    forall i | 0 <= i < |s.n.catalog|
      ensures Summable(s.n, s.n.catalog[i])
    {
      assert ScopeOk(s.n, s.n.disk.catalog[i]);
      assert Sound(s.n, s.p, LogOf(s.logs, s.n.catalog[i].id), s.n.catalog[i].id, s.n.disk.states[s.n.catalog[i].id]);
    }
  }

  // ---- Merging -----------------------------------------------------------------------------------

  /** Both sides serve the object under one grant. */
  ghost predicate Ready(s: System, id: ObjectId, owned: bool, kind: nat, epoch: nat, rights: nat) {
    && 0 < rights <= 3 && Serves(s.n, id, owned, kind, epoch, rights) && Serves(s.p, id, !owned, kind, epoch, rights)
    && s.n.cursor < |s.n.catalog| && s.p.cursor < |s.p.catalog|
  }

  /** One node says what it has, and takes in what the other answers. */
  lemma TakesIn(s: System, id: ObjectId, owned: bool, kind: nat, epoch: nat, rights: nat) returns (t: System)
    requires Inv(s) && Ready(s, id, owned, kind, epoch, rights)
    ensures Reaches(s, t) && t.p == s.p && Ready(t, id, owned, kind, epoch, rights)
    ensures t.n.disk.states[id] == Joining(Takes(owned, rights), s.n.disk.states[id], s.p.disk.states[id])
  {
    hide Inv, Run, Reaches, Merge, Valid, FindScope, FirstChange, Rotate, SameButCursor, Exchange, Receive;
    var i := FindScope(s.n.catalog, id).value;
    InvRotates(s);
    var summary := Summary(id, kind, epoch, s.n.disk.states[id]);
    assert PacketAt(s.n, |s.n.catalog| + i) == Some(summary);
    var sent := SaysEverything(s, |s.n.catalog| + i);
    SentServes(s.n, sent.n, id, owned, kind, epoch, rights);
    ReachesNext(s, sent, Turn(false, Hears(summary, Committed)));
    var heard := Take(sent, Turn(false, Hears(summary, Committed)));
    var reply := Receive(s.p, summary, Committed).1;
    OnlyAnswers(s.p, summary);
    assert heard == sent.(pout := if reply.Some? then sent.pout + {reply.value} else sent.pout);
    ExchangeMerges(sent.n, s.p, id, kind, epoch, rights, owned);
    ExchangeIs(sent.n, s.p, id, kind, epoch);
    if reply.None? {
      t := heard;
    } else {
      ReachesNext(s, heard, Turn(true, Hears(reply.value, Committed)));
      t := Take(heard, Turn(true, Hears(reply.value, Committed)));
    }
    assert t.n == Exchange(sent.n, s.p, id, kind, epoch) && t.p == s.p;
  }

  lemma SentServes(n: Node, after: Node, id: ObjectId, owned: bool, kind: nat, epoch: nat, rights: nat)
    requires Serves(n, id, owned, kind, epoch, rights) && SameButCursor(n, after)
    ensures Serves(after, id, owned, kind, epoch, rights) && after.disk == n.disk && after.cursor < |after.catalog|
  {
    hide Valid, FindScope;
  }

  /** Hearing a summary changes nothing. */
  lemma OnlyAnswers(n: Node, m: Message)
    requires m.Summary?
    ensures Receive(n, m, Committed).0 == n
  {
  }

  lemma ExchangeIs(a: Node, b: Node, id: ObjectId, kind: nat, epoch: nat)
    requires id in a.disk.states
    ensures var reply := Receive(b, Summary(id, kind, epoch, a.disk.states[id]), Committed).1;
            Exchange(a, b, id, kind, epoch) == if reply.None? then a else Receive(a, reply.value, Committed).0
  {
  }

  // ---- Bringing a grant into force ---------------------------------------------------------------

  /** What the other side has of an object, or starts it with. */
  ghost function Theirs(p: Node, id: ObjectId, kind: nat): State
    requires id in p.disk.states || Init(kind).Some?
  {
    if id in p.disk.states then p.disk.states[id] else Init(kind).value
  }

  /** A scope the owner lists, and whether the other side has it or can take it. */
  ghost predicate Shared(s: System, i: nat) {
    && i < |s.n.disk.catalog| && s.n.disk.catalog[i].owned && s.n.disk.catalog[i].rights != 0
    && (s.n.disk.catalog[i].id in s.p.disk.states || |s.p.disk.catalog| < OBJECTS_MAX)
  }

  lemma SharedFacts(s: System, i: nat)
    requires Inv(s) && Shared(s, i)
    ensures var sc := s.n.disk.catalog[i];
            && FindScope(s.n.disk.catalog, sc.id) == Some(i) && sc.id in s.n.disk.states && 0 < sc.rights <= 3
            && Valid(s.n.disk.states[sc.id]) && KindOf(s.n.disk.states[sc.id]) == sc.kind
            && sc.id.high == s.n.space == s.p.peerSpace && s.p.space != s.p.peerSpace
            && Init(sc.kind).Some? && Valid(Init(sc.kind).value) && KindOf(Init(sc.kind).value) == sc.kind
            && (sc.id in s.p.disk.states <==> FindScope(s.p.disk.catalog, sc.id).Some?)
            && (sc.id in s.p.disk.states ==> Valid(s.p.disk.states[sc.id]) && KindOf(s.p.disk.states[sc.id]) == sc.kind)
  {
    hide Known, FindScope, Valid, DisksOk;
    var sc := s.n.disk.catalog[i];
    ListedFacts(s, i);
    SwapKeeps(s);
    KnownIsListed(s);
    InitIsValid(s.n.disk.states[sc.id]);
    var k := FindScope(s.p.disk.catalog, sc.id);
    if k.Some? {
      ListedFacts(Swap(s), k.value);
      GrantHeld(s, k.value);
    }
  }

  lemma ListedFacts(s: System, i: nat)
    requires Inv(s) && i < |s.n.disk.catalog|
    ensures var sc := s.n.disk.catalog[i];
            && FindScope(s.n.disk.catalog, sc.id) == Some(i) && sc.id in s.n.disk.states && sc.rights <= 3
            && Valid(s.n.disk.states[sc.id]) && KindOf(s.n.disk.states[sc.id]) == sc.kind
            && sc.id.high == if sc.owned then s.n.space else s.n.peerSpace
  {
    hide Known, FindScope, Valid, MessagesOk;
    var sc := s.n.disk.catalog[i];
    assert ScopeOk(s.n, sc);
    assert Sound(s.n, s.p, LogOf(s.logs, sc.id), sc.id, s.n.disk.states[sc.id]);
    FindFirst(s.n, i);
  }

  lemma KnownIsListed(s: System)
    requires Inv(s)
    ensures s.n.space == s.p.peerSpace && s.p.space != s.p.peerSpace
    ensures forall id :: id in s.p.disk.states ==> FindScope(s.p.disk.catalog, id).Some?
  {
    hide Known, FindScope, Valid, MessagesOk;
  }

  lemma InitIsValid(s: State)
    ensures Init(KindOf(s)).Some? && Valid(Init(KindOf(s)).value) && KindOf(Init(KindOf(s)).value) == KindOf(s)
  {
  }

  /** What hearing the owner's current grant makes of a node that has been reopened. */
  lemma GrantTaken(s: System, i: nat)
    requires Inv(s) && Shared(s, i) && !s.p.halted && s.p.cursor == 0
    ensures var sc := s.n.disk.catalog[i];
            var after := AcceptGrant(s.p, Grant(sc.id, sc.kind, sc.epoch, sc.rights), Committed);
            && Serves(after, sc.id, false, sc.kind, sc.epoch, sc.rights) && after.cursor < |after.catalog|
            && after.disk.states[sc.id] == Theirs(s.p, sc.id, sc.kind)
  {
    hide DisksOk, Valid, Init, FindScope, FirstChange;
    var sc := s.n.disk.catalog[i];
    SharedFacts(s, i);
    var k := FindScope(s.p.catalog, sc.id);
    if k.Some? {
      HeldScopeIs(s, i, k.value);
      FindReplaced(s.p.catalog, k.value, Scope(sc.id, sc.epoch, sc.kind, sc.rights, false), sc.id);
    } else {
      FindAppended(s.p.catalog, Scope(sc.id, sc.epoch, sc.kind, sc.rights, false), sc.id);
    }
  }

  lemma HeldScopeIs(s: System, i: nat, k: nat)
    requires Inv(s) && Shared(s, i) && FindScope(s.p.disk.catalog, s.n.disk.catalog[i].id) == Some(k)
    ensures var own, held := s.n.disk.catalog[i], s.p.disk.catalog[k];
            && !held.owned && held.kind == own.kind && held.epoch <= own.epoch
            && (held.epoch == own.epoch ==> held.rights == own.rights)
  {
    hide Valid, Known, Init;
    SharedFacts(s, i);
    assert ScopeOk(s.p, s.p.disk.catalog[k]);
    GrantHeld(s, k);
  }

  /** Both sides come up again, the owner says what it grants, and the other side hears it. */
  lemma GrantComesIntoForce(s: System, i: nat) returns (t: System)
    requires Inv(s) && Shared(s, i)
    ensures var sc := s.n.disk.catalog[i];
            && Reaches(s, t) && Ready(t, sc.id, true, sc.kind, sc.epoch, sc.rights)
            && t.n.disk == s.n.disk && t.p.disk.states[sc.id] == Theirs(s.p, sc.id, sc.kind)
    ensures t.pout == s.pout && forall m :: m in t.out && m !in s.out ==> !m.Update?
  {
    hide Inv, Run, Reaches, Valid, Init, FindScope, FirstChange, Rotate, AcceptGrant;
    var sc := s.n.disk.catalog[i];
    SharedFacts(s, i);
    Stays(s);
    ReachesNext(s, s, Turn(true, Reopens));
    var one := Take(s, Turn(true, Reopens));
    ReachesNext(s, one, Turn(false, Reopens));
    var up := Take(one, Turn(false, Reopens));
    assert up == s.(n := Reopen(s.n), p := Reopen(s.p));
    ReachedIsSafe(s, up);
    InvRotates(up);
    var grant := Grant(sc.id, sc.kind, sc.epoch, sc.rights);
    assert PacketAt(up.n, i) == Some(grant);
    var sent := SaysEverything(up, i);
    ReachesFurther(s, up, sent);
    GrantTaken(up, i);
    ReachesNext(s, sent, Turn(false, Hears(grant, Committed)));
    t := Take(sent, Turn(false, Hears(grant, Committed)));
    assert t == sent.(p := AcceptGrant(up.p, grant, Committed));
  }

  // ---- Main results ------------------------------------------------------------------------------

  /**
   * From every reachable state, an object its owner shares can be brought together: each side
   * that takes changes under the granted rights ends with the merge of both, unless the two
   * are sets that hold more dots together than one may, which is the only thing in the way.
   */
  lemma ReplicasCanMerge(s: System, i: nat) returns (t: System)
    requires Reachable(s) && Shared(s, i)
    ensures var sc := s.n.disk.catalog[i];
            && Reaches(s, t) && sc.id in s.n.disk.states && (sc.id in s.p.disk.states || Init(sc.kind).Some?)
            && Ready(t, sc.id, true, sc.kind, sc.epoch, sc.rights)
            && var x, y := s.n.disk.states[sc.id], Theirs(s.p, sc.id, sc.kind);
               && t.n.disk.states[sc.id] == Joining(Takes(true, sc.rights), x, y)
               && t.p.disk.states[sc.id] == Joining(Takes(false, sc.rights), y, x)
               && (Merge(x, y).None? <==> x.OrSet? && y.OrSet? && |x.dots.Keys + y.dots.Keys| > DOTS_MAX)
               && (sc.rights == 3 ==> (t.n.disk.states[sc.id] == t.p.disk.states[sc.id] <==> Merge(x, y).Some?))
  {
    hide Reachable, Reaches, Inv, Shared, Valid, Init, Merge, Serves;
    ReachableIsSafe(s);
    SharedFacts(s, i);
    var sc := s.n.disk.catalog[i];
    var x, y := s.n.disk.states[sc.id], Theirs(s.p, sc.id, sc.kind);
    var ready := GrantComesIntoForce(s, i);
    ReachedIsSafe(s, ready);
    var one := TakesIn(ready, sc.id, true, sc.kind, sc.epoch, sc.rights);
    ReachesFurther(s, ready, one);
    ReachedIsSafe(ready, one);
    SwapKeeps(one);
    var two := TakesIn(Swap(one), sc.id, false, sc.kind, sc.epoch, sc.rights);
    ReachesMirrored(one, two);
    t := Swap(two);
    ReachesFurther(s, one, t);
    ReadyStates(ready, sc.id, sc.kind, sc.epoch, sc.rights);
    JoiningTwice(x, y, true, sc.rights);
    MergeableExactly(ready, sc.id);
  }

  lemma ReadyStates(s: System, id: ObjectId, kind: nat, epoch: nat, rights: nat)
    requires Ready(s, id, true, kind, epoch, rights)
    ensures id in s.n.disk.states && Valid(s.n.disk.states[id]) && KindOf(s.n.disk.states[id]) == kind
    ensures id in s.p.disk.states && Valid(s.p.disk.states[id]) && KindOf(s.p.disk.states[id]) == kind
  {
    hide Valid, FindScope;
  }

  lemma MergeableExactly(s: System, id: ObjectId)
    requires Inv(s) && id in s.n.disk.states && id in s.p.disk.states
    requires KindOf(s.n.disk.states[id]) == KindOf(s.p.disk.states[id])
    ensures var x, y := s.n.disk.states[id], s.p.disk.states[id];
            Merge(x, y).None? <==> x.OrSet? && y.OrSet? && |x.dots.Keys + y.dots.Keys| > DOTS_MAX
  {
    hide Valid, Known, Merge, FindScope;
    assert Sound(s.n, s.p, LogOf(s.logs, id), id, s.n.disk.states[id]);
    assert Sound(s.p, s.n, LogOf(s.logs, id), id, s.p.disk.states[id]);
    MergeExactly(s.n.disk.states[id], s.p.disk.states[id], LogOf(s.logs, id));
  }

  // ---- States only rise ------------------------------------------------------------------------

  /** An object a node holds is still there, in the same state or a later one. */
  ghost predicate StillHolds(n: Node, id: ObjectId, state: State) {
    id in n.disk.states && Rises(state, n.disk.states[id])
  }

  lemma ReceiveRises(n: Node, m: Message, fate: Fate, id: ObjectId, state: State)
    requires StillHolds(n, id, state)
    ensures StillHolds(Receive(n, m, fate).0, id, state)
  {
    hide FindScope, FirstChange, Merge, Valid, Init, Rises;
    if m.Update? && m.id == id && Merge(n.disk.states[id], m.state).Some? {
      MergeRises(n.disk.states[id], m.state);
      RisesOn(state, n.disk.states[id], Merge(n.disk.states[id], m.state).value);
    }
  }

  lemma StepRises(s: System, e: Event, id: ObjectId, state: State)
    requires StillHolds(s.n, id, state)
    ensures StillHolds(Step(s, e).n, id, state) && Step(s, e).p == s.p
  {
    hide FindScope, FirstChange, Merge, Receive, Rotate, Init, Edited, Rises;
    if e.Sends? {
      RotateFrom(s.n, 2 * |s.n.catalog|);
    }
    if e.Changes? && e.id == id && Edited(s.n.disk.states[id], s.n.index, e.edit).Some? {
      EditRises(s.n.disk.states[id], s.n.index, e.edit);
      RisesOn(state, s.n.disk.states[id], Edited(s.n.disk.states[id], s.n.index, e.edit).value);
    }
    if e.Hears? {
      ReceiveRises(s.n, e.m, e.fate, id, state);
    }
  }

  /** For one node alone: what it removed stays removed. */
  lemma {:induction false} RemovedStays(s: System, turns: seq<Turn>, id: ObjectId, t: Tag)
    requires Inv(s) && id in s.n.disk.states && s.n.disk.states[id].OrSet?
    requires t in s.n.disk.states[id].dots && s.n.disk.states[id].dots[t].removed
    ensures var after := Run(s, turns).n;
            && id in after.disk.states && after.disk.states[id].OrSet?
            && t in after.disk.states[id].dots && after.disk.states[id].dots[t].removed
  {
    hide Inv, Run;
    SoundVector(s, id);
    RisesSelf(s.n.disk.states[id]);
    RunRises(s, turns, id, s.n.disk.states[id]);
  }

  lemma SoundVector(s: System, id: ObjectId)
    requires Inv(s) && id in s.n.disk.states
    ensures |s.n.disk.states[id].vector| == 2
  {
    hide Known, FindScope, MessagesOk;
    assert Sound(s.n, s.p, LogOf(s.logs, id), id, s.n.disk.states[id]);
  }

  /**
   * In every run, whatever is edited, merged, lost, repeated or restarted, a node never takes a
   * step back: a dot it has stays, a dot removed stays removed, and no older write replaces a
   * later one.
   */
  lemma {:induction false} RunRises(s: System, turns: seq<Turn>, id: ObjectId, mine: State)
    requires StillHolds(s.n, id, mine)
    ensures StillHolds(Run(s, turns).n, id, mine)
    decreases |turns|
  {
    hide Step, StillHolds;
    if turns != [] {
      var before, t := Run(s, turns[..|turns| - 1]), turns[|turns| - 1];
      RunRises(s, turns[..|turns| - 1], id, mine);
      if t.here {
        StepRises(before, t.event, id, mine);
      } else {
        PeerUntouched(Swap(before), t.event);
      }
    }
  }

  /** Both sides hold the object in the same state. */
  ghost predicate Meets(s: System, id: ObjectId) {
    id in s.n.disk.states && id in s.p.disk.states && s.n.disk.states[id] == s.p.disk.states[id]
  }

  /** Both sides hold the object, as sets with more dots together than one may hold. */
  ghost predicate Overfull(s: System, id: ObjectId) {
    && id in s.n.disk.states && id in s.p.disk.states && s.n.disk.states[id].OrSet? && s.p.disk.states[id].OrSet?
    && |s.n.disk.states[id].dots.Keys + s.p.disk.states[id].dots.Keys| > DOTS_MAX
  }

  lemma FewDots(s: System, id: ObjectId)
    requires Inv(s) && id in s.n.disk.states && s.n.disk.states[id].OrSet?
    ensures |s.n.disk.states[id].dots.Keys| <= DOTS_MAX
  {
    hide Known, FindScope, MessagesOk;
    assert Sound(s.n, s.p, LogOf(s.logs, id), id, s.n.disk.states[id]);
    SameSize(s.n.disk.states[id].dots);
  }

  lemma SmallerSet(a: set<Tag>, b: set<Tag>)
    requires a <= b
    ensures |a| <= |b|
  {
    assert b == a + (b - a);
  }

  /**
   * Two sets with more dots together than one may hold never become equal again: in no run,
   * whatever is edited, granted, sent, lost, repeated or restarted.
   */
  lemma NeverMeet(s: System, turns: seq<Turn>, id: ObjectId)
    requires Reachable(s) && Overfull(s, id)
    ensures !Meets(Run(s, turns), id)
  {
    hide Reachable, Inv, Run;
    ReachableIsSafe(s);
    RunKeeps(s, turns);
    var after := Run(s, turns);
    var mine, theirs := s.n.disk.states[id], s.p.disk.states[id];
    SwapKeeps(s);
    SoundVector(s, id);
    SoundVector(Swap(s), id);
    RisesSelf(mine);
    RisesSelf(theirs);
    RunRises(s, turns, id, mine);
    RunMirrored(s, turns);
    RunRises(Swap(s), Mirrored(turns), id, theirs);
    FewDots(after, id);
    if Meets(after, id) {
      SmallerSet(mine.dots.Keys + theirs.dots.Keys, after.n.disk.states[id].dots.Keys);
    }
  }

  /** An object its owner lists and can still grant everything on, and which the other side has or can take. */
  ghost predicate Shareable(s: System, i: nat) {
    && i < |s.n.disk.catalog| && s.n.disk.catalog[i].owned
    && (s.n.disk.catalog[i].rights == 3 || s.n.disk.catalog[i].epoch < UINT64_MAX)
    && (s.n.disk.catalog[i].id in s.p.disk.states || |s.p.disk.catalog| < OBJECTS_MAX)
  }

  lemma SharesAll(n: Node, i: nat)
    requires !n.halted && i < |n.catalog| && FindScope(n.catalog, n.catalog[i].id) == Some(i) && n.catalog[i].owned
    requires n.catalog[i].rights != 3 && n.catalog[i].epoch < UINT64_MAX && n.catalog == n.disk.catalog
    ensures var sc := n.catalog[i];
            var all := sc.(epoch := sc.epoch + 1, rights := 3);
            Share(n, sc.id, 3, Committed).disk == n.disk.(catalog := n.disk.catalog[i := all])
  {
    hide FirstChange;
  }

  /** The owner grants everything. */
  lemma GrantsAll(s: System, i: nat) returns (t: System)
    requires Reachable(s) && Shareable(s, i)
    ensures Reaches(s, t) && Reachable(t) && t.n.disk.states == s.n.disk.states && t.p == s.p && Shared(t, i)
    ensures t.n.disk.catalog[i].rights == 3 && t.n.disk.catalog[i].id == s.n.disk.catalog[i].id
    ensures t.n.disk.catalog[i].kind == s.n.disk.catalog[i].kind
  {
    hide Reachable, Inv, Run, Reaches, FindScope, Share, Recorded;
    ReachableIsSafe(s);
    ListedFacts(s, i);
    Stays(s);
    if s.n.disk.catalog[i].rights == 3 {
      t := s;
    } else {
      ReachesNext(s, s, Turn(true, Reopens));
      var up := Take(s, Turn(true, Reopens));
      SharesAll(up.n, i);
      ReachesNext(s, up, Turn(true, Shares(s.n.disk.catalog[i].id, 3, Committed)));
      t := Take(up, Turn(true, Shares(s.n.disk.catalog[i].id, 3, Committed)));
    }
    ReachedIsReachable(s, t);
  }

  /**
   * So two replicas of an object can be brought together exactly if they are not two sets with
   * more dots together than one may hold.
   */
  lemma CanMeetExactly(s: System, i: nat)
    requires Reachable(s) && Shareable(s, i)
    ensures var id := s.n.disk.catalog[i].id;
            (exists turns :: Meets(Run(s, turns), id)) <==> !Overfull(s, id)
  {
    hide Reachable, Inv, Run, FindScope;
    var id := s.n.disk.catalog[i].id;
    if Overfull(s, id) {
      forall turns
        ensures !Meets(Run(s, turns), id)
      {
        NeverMeet(s, turns, id);
      }
    } else {
      var shared := GrantsAll(s, i);
      var t := CanMeet(shared, i);
      ReachesFurther(s, shared, t);
      var turns :| Run(s, turns) == t;
      assert Meets(Run(s, turns), id);
    }
  }

  lemma CanMeet(s: System, i: nat) returns (t: System)
    requires Reachable(s) && Shared(s, i) && s.n.disk.catalog[i].rights == 3 && !Overfull(s, s.n.disk.catalog[i].id)
    ensures Reaches(s, t) && Meets(t, s.n.disk.catalog[i].id)
  {
    hide Reachable, Inv, Valid, Init, Merge, Serves, Reaches, FindScope;
    var id, kind := s.n.disk.catalog[i].id, s.n.disk.catalog[i].kind;
    ReachableIsSafe(s);
    t := ReplicasCanMerge(s, i);
    ReadyStates(t, id, kind, s.n.disk.catalog[i].epoch, 3);
    if id !in s.p.disk.states {
      OwnDotsFit(s, i);
    }
  }

  /** What the other side starts with has no dots of its own. */
  lemma OwnDotsFit(s: System, i: nat)
    requires Inv(s) && Shared(s, i)
    ensures var sc := s.n.disk.catalog[i];
            && sc.id in s.n.disk.states && Init(sc.kind).Some?
            && var x, y := s.n.disk.states[sc.id], Init(sc.kind).value;
               x.OrSet? && y.OrSet? ==> |x.dots.Keys + y.dots.Keys| <= DOTS_MAX
  {
    hide Inv, Shared, Valid, FindScope;
    SharedFacts(s, i);
    var sc := s.n.disk.catalog[i];
    var x, y := s.n.disk.states[sc.id], Init(sc.kind).value;
    if x.OrSet? && y.OrSet? {
      FewDots(s, sc.id);
      assert x.dots.Keys + y.dots.Keys == x.dots.Keys;
    }
  }

  // ---- Apart for good ------------------------------------------------------------------------------

  /** All that was ever sent to change the object is what its sender holds now. */
  ghost predicate Fixed(n: Node, out: set<Message>, id: ObjectId, state: State) {
    && id in n.disk.states && n.disk.states[id] == state
    && forall m :: m in out && m.Update? && m.id == id ==> m.state == state
  }

  /** The two sides cannot be merged. */
  ghost predicate Apart(s: System, id: ObjectId, x: State, y: State) {
    Fixed(s.n, s.out, id, x) && Fixed(s.p, s.pout, id, y) && Merge(x, y).None?
  }

  predicate NoEdit(t: Turn, id: ObjectId) {
    !(t.event.Changes? && t.event.id == id)
  }

  lemma ReceiveFixes(n: Node, out: set<Message>, m: Message, fate: Fate, id: ObjectId, x: State, y: State)
    requires Fixed(n, out, id, x) && Merge(x, y).None? && (m.Update? && m.id == id ==> m.state == y)
    ensures var (after, reply) := Receive(n, m, fate);
            Fixed(after, if reply.Some? then out + {reply.value} else out, id, x)
  {
    hide FindScope, FirstChange, Merge, Valid, Init;
  }

  lemma StepFixes(s: System, e: Event, id: ObjectId, x: State, y: State)
    requires Apart(s, id, x, y) && NoEdit(Turn(true, e), id)
    ensures Apart(Step(s, e), id, x, y)
  {
    hide FindScope, FirstChange, Merge, Receive, Rotate, Init, Edited;
    if e.Sends? {
      RotateFrom(s.n, 2 * |s.n.catalog|);
    }
    if e.Hears? && e.m in s.pout {
      ReceiveFixes(s.n, s.out, e.m, e.fate, id, x, y);
    }
  }

  /**
   * Where the merge is refused and every update under way is up to date, no run without an edit
   * of the object, whatever is granted, lost or restarted, changes either side.
   */
  lemma {:induction false} NeitherMoves(s: System, turns: seq<Turn>, id: ObjectId, x: State, y: State)
    requires Apart(s, id, x, y) && forall k :: 0 <= k < |turns| ==> NoEdit(turns[k], id)
    ensures Apart(Run(s, turns), id, x, y)
    decreases |turns|
  {
    hide Step, Fixed;
    if turns != [] {
      var before, t := Run(s, turns[..|turns| - 1]), turns[|turns| - 1];
      NeitherMoves(s, turns[..|turns| - 1], id, x, y);
      MergeCommutes(x, y);
      if t.here {
        StepFixes(before, t.event, id, x, y);
      } else {
        StepFixes(Swap(before), t.event, id, y, x);
      }
    }
  }

  // ---- Such runs exist -----------------------------------------------------------------------------

  ghost predicate OnlyBy(s: State, node: nat, count: nat) {
    && s.OrSet? && Valid(s) && node <= 1 && |s.dots| == count && s.vector[node] == count
    && forall t :: t in s.dots ==> t.node == node
  }

  lemma AddsOne(s: State, node: nat, count: nat)
    requires node <= 1 && count < DOTS_MAX && |s.vector| == 2 && OnlyBy(s, node, count)
    ensures Edited(s, node, Add(0)).Some? && |Edited(s, node, Add(0)).value.vector| == 2
    ensures OnlyBy(Edited(s, node, Add(0)).value, node, count + 1)
  {
    var t := Tag(node, s.vector[node] + 1);
    assert t !in s.dots;
  }

  /** A node that serves an object, set up to be filled. */
  ghost predicate Filling(s: System, id: ObjectId, owned: bool, epoch: nat, count: nat) {
    && s.n.index <= 1 && Ready(s, id, owned, ORSET, epoch, 3) && OnlyBy(s.n.disk.states[id], s.n.index, count)
  }

  lemma {:induction false} Fills(s: System, id: ObjectId, owned: bool, epoch: nat, count: nat) returns (t: System)
    requires Filling(s, id, owned, epoch, count) && count <= 9
    ensures Reaches(s, t) && Filling(t, id, owned, epoch, 9) && t.p == s.p && t.out == s.out && t.pout == s.pout
    decreases 9 - count
  {
    hide Run, Reaches, Edited, FindScope, Valid, OnlyBy;
    Stays(s);
    t := s;
    if count < 9 {
      VectorOf(s.n.disk.states[id]);
      AddsOne(s.n.disk.states[id], s.n.index, count);
      ReachesNext(s, s, Turn(true, Changes(id, Add(0), Committed)));
      var next := Take(s, Turn(true, Changes(id, Add(0), Committed)));
      OnlyByFacts(Edited(s.n.disk.states[id], s.n.index, Add(0)).value, s.n.index, count + 1);
      t := Fills(next, id, owned, epoch, count + 1);
      ReachesFurther(s, next, t);
    }
  }

  lemma VectorOf(s: State)
    requires Valid(s)
    ensures |s.vector| == 2
  {
  }

  lemma OnlyByFacts(s: State, node: nat, count: nat)
    requires node <= 1 && |s.vector| == 2 && OnlyBy(s, node, count)
    ensures Valid(s) && KindOf(s) == ORSET
  {
  }

  /** Nine dots by either node are too many together. */
  lemma TooManyTogether(x: State, y: State, a: nat, b: nat)
    requires a != b && a <= 1 && b <= 1 && |x.vector| == |y.vector| == 2 && OnlyBy(x, a, 9) && OnlyBy(y, b, 9)
    ensures Merge(x, y).None? && x.OrSet? && y.OrSet? && |x.dots.Keys + y.dots.Keys| > DOTS_MAX
  {
    var u := Union(x.dots, y.dots);
    assert u.Keys == x.dots.Keys + y.dots.Keys;
    assert x.dots.Keys !! y.dots.Keys;
    assert |x.dots.Keys + y.dots.Keys| == |x.dots.Keys| + |y.dots.Keys|;
    SameSize(x.dots);
    SameSize(y.dots);
    SameSize(u);
  }

  const FIRST := Node(1, 2, 0, Disk([], map[]), [], 0, true, false)
  const SECOND := Node(2, 1, 1, Disk([], map[]), [], 0, true, false)

  const ITEM := ObjectId(1, 1)

  /** One node makes a set and grants everything on it. */
  lemma SetIsShared() returns (s: System)
    ensures Reachable(s) && s.out == s.pout == {} && s.n.index == 0 && s.p.index == 1 && s.p.disk == Disk([], map[])
    ensures s.n.disk == Disk([Scope(ITEM, 2, ORSET, 3, true)], map[ITEM := OrSet([0, 0], map[])])
  {
    hide Create, Share, Publish, FindScope, FirstChange;
    var start := System(FIRST, SECOND, {}, {}, map[], map[], map[]);
    var create, share := Turn(true, Creates(1, ORSET, Committed)), Turn(true, Shares(ITEM, 3, Committed));
    var made := Take(start, create);
    CreatesItem();
    s := Take(made, share);
    SharesItem(made.n);
    assert [create, share][..1] == [create] && [create][..0] == [];
    assert Run(start, []) == start;
    assert Run(start, [create]) == made;
    assert Run(start, [create, share]) == s;
  }

  lemma CreatesItem()
    ensures var n := Create(FIRST, 1, ORSET, Committed);
            && n == FIRST.(disk := n.disk, catalog := n.catalog) && n.catalog == [Scope(ITEM, 1, ORSET, 0, true)]
            && n.disk == Disk(n.catalog, map[ITEM := OrSet([0, 0], map[])])
  {
    assert [] + [Scope(ITEM, 1, ORSET, 0, true)] == [Scope(ITEM, 1, ORSET, 0, true)];
  }

  lemma SharesItem(n: Node)
    requires !n.halted && n.catalog == n.disk.catalog == [Scope(ITEM, 1, ORSET, 0, true)]
    ensures var after := Share(n, ITEM, 3, Committed);
            after.index == n.index && after.disk == Disk([Scope(ITEM, 2, ORSET, 3, true)], n.disk.states)
  {
    assert FindScope(n.catalog, ITEM) == Some(0);
  }

  /** There are runs from two empty stores to two sides that can never meet. */
  lemma ApartHappens() returns (s: System, x: State, y: State)
    ensures Reachable(s) && Apart(s, ITEM, x, y) && x != y && Overfull(s, ITEM)
  {
    hide Reachable, Reaches, Run, Merge, OnlyBy, Valid, FindScope, Inv;
    var id := ITEM;
    var shared := SetIsShared();
    ReachableIsSafe(shared);
    var ready := GrantComesIntoForce(shared, 0);
    EmptySet(0);
    EmptySet(1);
    IndexesStay(shared, ready);
    assert Filling(ready, id, true, 2, 0);
    var mine := Fills(ready, id, true, 2, 0);
    ReachesFurther(shared, ready, mine);
    IndexesStay(shared, mine);
    assert Filling(Swap(mine), id, false, 2, 0);
    var theirs := Fills(Swap(mine), id, false, 2, 0);
    ReachesMirrored(mine, theirs);
    s := Swap(theirs);
    ReachesFurther(shared, mine, s);
    IndexesStay(shared, s);
    ReachedIsReachable(shared, s);
    x, y := s.n.disk.states[id], s.p.disk.states[id];
    VectorOf(x);
    VectorOf(y);
    TooManyTogether(x, y, 0, 1);
    if x == y {
      MergeIsIdempotent(x);
    }
  }

  lemma EmptySet(node: nat)
    requires node <= 1
    ensures Init(ORSET) == Some(OrSet([0, 0], map[])) && OnlyBy(OrSet([0, 0], map[]), node, 0)
  {
  }

  lemma {:induction false} IndexesStay(s: System, t: System)
    requires Reaches(s, t)
    ensures t.n.index == s.n.index && t.p.index == s.p.index
  {
    hide Take;
    var turns :| Run(s, turns) == t;
    RunSelves(s, turns);
  }

  lemma {:induction false} RunSelves(s: System, turns: seq<Turn>)
    ensures Run(s, turns).n.index == s.n.index && Run(s, turns).p.index == s.p.index
    decreases |turns|
  {
    hide Step;
    if turns != [] {
      var before, t := Run(s, turns[..|turns| - 1]), turns[|turns| - 1];
      RunSelves(s, turns[..|turns| - 1]);
      StepSelf(before, t.event);
      StepSelf(Swap(before), t.event);
    }
  }

  lemma StepSelf(s: System, e: Event)
    ensures Step(s, e).n.index == s.n.index && Step(s, e).p == s.p
  {
    hide FindScope, FirstChange, Merge, Init, Edited, Valid, Rotate;
    RotateFrom(s.n, 2 * |s.n.catalog|);
  }
}
