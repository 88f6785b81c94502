/** Two migration endpoints played through any run: what holds of runs holds of them. */
module MigrationRuns {
  import opened ObjectIds
  import opened Migrations
  import opened MigrationSafety
  import opened MigrationTheorems
  import opened MigrationNodes

  /** The endpoint and what it has sent are as the run says. */
  ghost predicate Shows(n: MigrationNode, out: set<Wire>, s: System)
    reads n
  {
    Same(n.State(), s.n) && out == s.out
  }

  /** A stopped node does nothing until it restarts. */
  lemma StoppedStays(s: System, e: Event)
    requires s.n.recovery && !e.Restarts?
    ensures Step(s, e).n == s.n && Step(s, e).out == s.out
  {
    hide Transfer, Deliver, HearAck, HearForwardAck, FindReceipt;
  }

  /** The state of the system once one event happened here. */
  method Turn(n: MigrationNode, e: Event, out: set<Wire>, pout: set<Wire>, ghost s: System) returns (sent: set<Wire>)
    requires Shows(n, out, s) && pout == s.pout
    modifies n
    ensures Shows(n, sent, Step(s, e))
  {
    hide Transfer, Deliver, HearAck, HearForwardAck, FindReceipt, Encode, Size, SelfOnly, Without, PriorGeneration, Import;
    sent := out;
    if n.recovery {
      if e.Restarts? {
        n.Reopen(e.allow);
      } else {
        StoppedStays(s, e);
      }
      return;
    }
    assert n.State() == s.n;
    match e
    case Leaves(root, isolated, memory, fate) => var status := n.Begin(root, isolated, memory, fate);
    case Resumes(root, memory) => var ok := n.ResumeSource(root, memory);
    case Sends =>
      var w := n.Packet();
      if w.Some? {
        sent := out + {w.value};
      }
    case Hears(w, fate) =>
      if w in pout {
        var reply := n.Hear(w, fate);
        if reply.Some? {
          sent := out + {reply.value};
        }
      }
    case Posting(payload, fate) => var status := n.PostLetter(payload, fate);
    case Attaches(root) => var ok := n.AttachTarget(root);
    case Restarts(allow) => n.Reopen(allow);
    case Spawns(c, fate) =>
      if |n.store.registry| < COMPONENT_MAX && n.store.next + 4 <= UINT64_MAX {
        var root := n.store.next + 3;
        n.Replace(n.store.(registry := n.store.registry + [root], next := n.store.next + 4,
                           components := n.store.components[root := c]), fate);
      }
    case Runs(root, c, fate) =>
      if root in n.store.registry && root in n.store.components && root !in n.store.fences {
        n.Replace(n.store.(components := n.store.components[root := c]), fate);
      }
  }

  /**
   * Plays two endpoints over empty stores through any moves. They end as the run of the protocol
   * says, so whatever holds of every run holds of them: here, that no component is ever runnable
   * at both, and none is imported twice.
   */
  method Play(a: MigrationNode, b: MigrationNode, moves: seq<Move>, ghost allow: bool, ghost peerAllow: bool)
    returns (ghost s: System)
    requires a != b && a.State() == Fresh(allow, peerAllow).n && b.State() == Fresh(allow, peerAllow).p
    modifies a, b
    ensures s == Run(Fresh(allow, peerAllow), moves) && Same(a.State(), s.n) && Same(b.State(), s.p)
    ensures forall i :: 0 <= i < |b.store.receipts| ==>
              var source := b.store.receipts[i].source;
              source in a.store.fences && source !in a.store.registry && !Runnable(a.State(), source)
    ensures forall i :: 0 <= i < |a.store.receipts| ==>
              var source := a.store.receipts[i].source;
              source in b.store.fences && source !in b.store.registry && !Runnable(b.State(), source)
    ensures forall i, j :: 0 <= i < j < |b.store.receipts| ==> b.store.receipts[i].source != b.store.receipts[j].source
  {
    hide Step, Reachable;
    s := Fresh(allow, peerAllow);
    var out: set<Wire>, pout: set<Wire> := {}, {};
    var k := 0;
    assert moves[..0] == [];
    while k < |moves|
      invariant 0 <= k <= |moves| && s == Run(Fresh(allow, peerAllow), moves[..k])
      invariant Shows(a, out, s) && Shows(b, pout, Swapped(s))
    {
      var move := moves[k];
      assert moves[..k + 1][..k] == moves[..k];
      PeerStands(s, move.event);
      PeerStands(Swapped(s), move.event);
      if move.here {
        out := Turn(a, move.event, out, pout, s);
      } else {
        pout := Turn(b, move.event, pout, out, Swapped(s));
      }
      s := Moved(s, move);
      k := k + 1;
    }
    assert moves[..k] == moves;
    Consequences(s, allow, peerAllow, moves);
  }

  lemma PeerStands(s: System, e: Event)
    ensures Step(s, e).p == s.p && Step(s, e).pout == s.pout
  {
    hide Transfer, Deliver, HearAck, HearForwardAck, FindReceipt;
  }

  lemma Consequences(s: System, allow: bool, peerAllow: bool, moves: seq<Move>)
    requires s == Run(Fresh(allow, peerAllow), moves)
    ensures forall i :: 0 <= i < |s.p.store.receipts| ==>
              var source := s.p.store.receipts[i].source;
              source in s.n.store.fences && source !in s.n.store.registry && !Runnable(s.n, source)
    ensures forall i :: 0 <= i < |s.n.store.receipts| ==>
              var source := s.n.store.receipts[i].source;
              source in s.p.store.fences && source !in s.p.store.registry && !Runnable(s.p, source)
    ensures forall i, j :: 0 <= i < j < |s.p.store.receipts| ==> s.p.store.receipts[i].source != s.p.store.receipts[j].source
  {
    hide Runnable;
    assert Reachable(s);
    hide Reachable;
    ReachableIsSafe(s);
    forall i | 0 <= i < |s.p.store.receipts|
      ensures var source := s.p.store.receipts[i].source;
              source in s.n.store.fences && source !in s.n.store.registry && !Runnable(s.n, source)
    {
      NoDualOwner(s, i);
    }
    forall i | 0 <= i < |s.n.store.receipts|
      ensures var source := s.n.store.receipts[i].source;
              source in s.p.store.fences && source !in s.p.store.registry && !Runnable(s.p, source)
    {
      OwnedOnce(Swapped(s), i);
    }
    forall i, j | 0 <= i < j < |s.p.store.receipts|
      ensures s.p.store.receipts[i].source != s.p.store.receipts[j].source
    {
      ImportedAtMostOnce(s, i, j);
    }
  }
}
