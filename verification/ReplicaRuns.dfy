/** Two replica endpoints played through any run: what holds of runs holds of them. */
module ReplicaRuns {
  import opened ObjectIds
  import opened Crdts
  import opened Replicas
  import opened ReplicaSafety
  import opened ReplicaTheorems
  import opened ReplicaNodes

  /** The endpoint and what it has sent are as the run says. */
  ghost predicate Shows(n: Replica, out: set<Message>, s: System)
    reads n
  {
    n.State() == s.n && out == s.out
  }

  /** One event happens here. */
  method Play(n: Replica, e: Event, out: set<Message>, pout: set<Message>, ghost s: System) returns (sent: set<Message>)
    requires Shows(n, out, s) && pout == s.pout
    modifies n
    ensures Shows(n, sent, Step(s, e))
  {
    hide Replicas.Create, Replicas.Share, Replicas.Change, Replicas.Receive, Replicas.NextPacket;
    sent := out;
    match e
    case Creates(sequence, kind, fate) => var id := n.Create(sequence, kind, fate);
    case Shares(id, rights, fate) => var ok := n.Share(id, rights, fate);
    case Changes(id, edit, fate) => var ok := n.Change(id, edit, fate);
    case Sends =>
      var packet := n.NextPacket();
      if packet.Some? {
        sent := out + {packet.value};
      }
    case Hears(m, fate) =>
      if m in pout {
        var reply := n.Receive(m, fate);
        if reply.Some? {
          sent := out + {reply.value};
        }
      }
    case Reopens => n.Restart();
  }

  /**
   * Plays two endpoints over empty stores through any turns. They end as the run says, so
   * whatever holds of every run holds of them: here, that a peer never holds a grant its
   * owner did not give, nor other rights than the owner's in the same epoch.
   */
  method PlayAll(a: Replica, b: Replica, turns: seq<Turn>, ghost start: System) returns (ghost s: System)
    requires a != b && Fresh(start) && a.State() == start.n && b.State() == start.p
    modifies a, b
    ensures s == Run(start, turns) && a.State() == s.n && b.State() == s.p
    ensures forall i :: 0 <= i < |b.disk.catalog| && !b.disk.catalog[i].owned ==>
              Agreed(a.disk.catalog, b.disk.catalog[i])
    ensures forall i :: 0 <= i < |a.disk.catalog| && !a.disk.catalog[i].owned ==>
              Agreed(b.disk.catalog, a.disk.catalog[i])
  {
    hide Step, Reachable, Inv, Agreed;
    s := start;
    var out: set<Message>, pout: set<Message> := {}, {};
    var k := 0;
    assert turns[..0] == [];
    while k < |turns|
      invariant 0 <= k <= |turns| && s == Run(start, turns[..k])
      invariant Shows(a, out, s) && Shows(b, pout, Swap(s))
    {
      var turn := turns[k];
      assert turns[..k + 1][..k] == turns[..k];
      PeerStands(s, turn.event);
      PeerStands(Swap(s), turn.event);
      if turn.here {
        out := Play(a, turn.event, out, pout, s);
      } else {
        pout := Play(b, turn.event, pout, out, Swap(s));
      }
      s := Take(s, turn);
      k := k + 1;
    }
    assert turns[..k] == turns;
    AllAgreed(s, start, turns);
  }

  lemma PeerStands(s: System, e: Event)
    ensures Step(s, e).p == s.p && Step(s, e).pout == s.pout
  {
    hide Replicas.Create, Replicas.Share, Replicas.Change, Replicas.Receive, Replicas.NextPacket;
  }

  /** The owner lists what is held, has not gone back behind it, and means the same by the same epoch. */
  predicate Agreed(owner: Catalog, held: Scope) {
    var k := FindScope(owner, held.id);
    && k.Some?
    && var own := owner[k.value];
       && own.owned && own.kind == held.kind && held.epoch <= own.epoch
       && (held.epoch == own.epoch ==> held.rights == own.rights)
  }

  lemma AllAgreed(s: System, start: System, turns: seq<Turn>)
    requires Fresh(start) && s == Run(start, turns)
    ensures forall i :: 0 <= i < |s.p.disk.catalog| && !s.p.disk.catalog[i].owned ==>
              Agreed(s.n.disk.catalog, s.p.disk.catalog[i])
    ensures forall i :: 0 <= i < |s.n.disk.catalog| && !s.n.disk.catalog[i].owned ==>
              Agreed(s.p.disk.catalog, s.n.disk.catalog[i])
  {
    hide Inv;
    assert Reachable(s);
    ReachableIsSafe(s);
    SwapKeeps(s);
    forall i | 0 <= i < |s.p.disk.catalog| && !s.p.disk.catalog[i].owned
      ensures Agreed(s.n.disk.catalog, s.p.disk.catalog[i])
    {
      GrantHeld(s, i);
    }
    forall i | 0 <= i < |s.n.disk.catalog| && !s.n.disk.catalog[i].owned
      ensures Agreed(s.p.disk.catalog, s.n.disk.catalog[i])
    {
      GrantHeld(Swap(s), i);
    }
  }
}
