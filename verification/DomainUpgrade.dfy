/** Opening a domain, and making the forest from local links where none was stored. */
module DomainUpgrade {
  import opened ObjectIds
  import opened CapTables
  import opened Mailboxes
  import opened Domains
  import opened CapabilityDomains
  import D = Derivations

  // ---- Opening ----------------------------------------------------------------------------------

  /** A component's record without the forest. */
  ghost predicate Loaded(items: Items) {
    && |items| == COMPONENT_MAX && Distinct(items)
    && forall i :: 0 <= i < |items| && items[i].Some? ==>
         !IsZero(items[i].value.root) && IsMailbox(items[i].value.mailbox) && AttachmentsOk(items[i].value)
  }

  ghost predicate TablesOk(items: Items, n: nat)
    requires n <= |items|
  {
    forall i :: 0 <= i < n && items[i].Some? ==> TableOk(items[i].value.table)
  }

  /** Slot `s` of member `i` has a local parent. */
  predicate HasLink(items: Items, i: nat, s: nat) {
    IsMember(items, i) && s < CapTables.SLOTS && items[i].value.table.parents[s] < CapTables.SLOTS
  }

  function LocalEdge(items: Items, i: nat, s: nat): Edge
    requires HasLink(items, i, s)
  {
    D.Edge(RefOf(items[i].value, items[i].value.table.parents[s]), RefOf(items[i].value, s))
  }

  /** A position in the scan over members and slots. */
  predicate Before(i: nat, s: nat, i': nat, s': nat) {
    i < i' || (i == i' && s < s')
  }

  /** These are the local links scanned so far, each once. */
  ghost predicate Scanned(items: Items, edges: seq<Edge>, i: nat, s: nat) {
    && D.UniqueChildren(edges)
    && (forall e :: e in edges ==> exists i': nat, s': nat :: HasLink(items, i', s') && Before(i', s', i, s) && e == LocalEdge(items, i', s'))
    && (forall i': nat, s': nat :: HasLink(items, i', s') && Before(i', s', i, s) ==> LocalEdge(items, i', s') in edges)
  }

  lemma LocalRefsOk(items: Items, n: nat, i: nat, s: nat)
    requires n <= |items| && TablesOk(items, n) && i < n && HasLink(items, i, s) && !IsZero(items[i].value.root)
    ensures D.RefOk(LocalEdge(items, i, s).parent) && D.RefOk(LocalEdge(items, i, s).child)
    ensures var t := items[i].value.table; Get(t, t.parents[s]).Some? && Get(t, s).Some? && MayDerive(Get(t, t.parents[s]).value, Get(t, s).value)
  {
    hide Acyclic, MayDerive;
    assert SlotOk(items[i].value.table, s);
  }

  lemma SameOwner(items: Items, i: nat, s: nat, i': nat, s': nat)
    requires Distinct(items) && IsMember(items, i) && s < CapTables.SLOTS && HasLink(items, i', s')
    requires LocalEdge(items, i', s').child == RefOf(items[i].value, s)
    ensures i == i' && s == s'
  {
    assert i < i' || i' < i || i == i';
  }

  lemma LocalParent(items: Items, edges: seq<Edge>, at: nat, to: nat, i: nat, s: nat)
    requires Distinct(items) && Scanned(items, edges, at, to) && IsMember(items, i) && s < CapTables.SLOTS
    ensures D.ParentOf(edges, RefOf(items[i].value, s)).Some? ==>
              HasLink(items, i, s) && D.ParentOf(edges, RefOf(items[i].value, s)).value == LocalEdge(items, i, s).parent
    ensures HasLink(items, i, s) && Before(i, s, at, to) ==> D.ParentOf(edges, RefOf(items[i].value, s)).Some?
  {
    hide Distinct, D.UniqueChildren, D.IndexOf;
    var k := D.IndexOf(edges, RefOf(items[i].value, s));
    assert HasLink(items, i, s) && Before(i, s, at, to) ==> LocalEdge(items, i, s) in edges;
    if k.Some? {
      assert edges[k.value] in edges;
      var i': nat, s': nat :| HasLink(items, i', s') && Before(i', s', at, to) && edges[k.value] == LocalEdge(items, i', s');
      SameOwner(items, i, s, i', s');
    }
  }

  /** Walking the scanned edges is walking the owner's own links. */
  lemma {:induction false} LocalUp(items: Items, edges: seq<Edge>, at: nat, to: nat, i: nat, s: nat, n: nat)
    requires Distinct(items) && Scanned(items, edges, at, to) && IsMember(items, i) && s < CapTables.SLOTS
    requires D.Up(edges, RefOf(items[i].value, s), n).Some?
    ensures var t := CapTables.Up(items[i].value.table.parents, s, n);
            t.Some? && t.value < CapTables.SLOTS && D.Up(edges, RefOf(items[i].value, s), n).value == RefOf(items[i].value, t.value)
    decreases n
  {
    hide Distinct, Scanned, D.ParentOf;
    if n > 0 {
      LocalParent(items, edges, at, to, i, s);
      LocalUp(items, edges, at, to, i, items[i].value.table.parents[s], n - 1);
    }
  }

  lemma ScannedAcyclic(items: Items, edges: seq<Edge>, at: nat, to: nat, n: nat, r: Ref, k: nat)
    requires Distinct(items) && Scanned(items, edges, at, to) && n <= |items| && TablesOk(items, n)
    requires forall i': nat, s': nat :: HasLink(items, i', s') && Before(i', s', at, to) ==> i' < n
    requires k > 0
    ensures D.Up(edges, r, k) != Some(r)
  {
    hide Distinct, D.IndexOf, D.UniqueChildren;
    var x := D.IndexOf(edges, r);
    if D.Up(edges, r, k) == Some(r) && x.Some? {
      assert edges[x.value] in edges;
      var i': nat, s': nat :| HasLink(items, i', s') && Before(i', s', at, to) && edges[x.value] == LocalEdge(items, i', s');
      LocalUp(items, edges, at, to, i', s', k);
    }
  }

  /** Local links of well-formed tables are always a forest, however many have been collected. */
  lemma ScannedForest(items: Items, edges: seq<Edge>, at: nat, to: nat, n: nat)
    requires Loaded(items) && Scanned(items, edges, at, to) && n <= |items| && TablesOk(items, n) && |edges| <= D.DERIVATION_MAX
    requires forall i': nat, s': nat :: HasLink(items, i', s') && Before(i', s', at, to) ==> i' < n
    ensures D.Forest(edges)
  {
    hide Distinct, D.UniqueChildren, TablesOk, D.Up, IsMailbox, AttachmentsOk;
    forall r: Ref, k: nat | k > 0
      ensures D.Up(edges, r, k) != Some(r)
    {
      ScannedAcyclic(items, edges, at, to, n, r, k);
    }
    forall k | 0 <= k < |edges|
      ensures D.RefOk(edges[k].parent) && D.RefOk(edges[k].child)
    {
      assert edges[k] in edges;
      var i': nat, s': nat :| HasLink(items, i', s') && Before(i', s', at, to) && edges[k] == LocalEdge(items, i', s');
      LocalRefsOk(items, n, i', s');
    }
  }

  lemma ScannedNext(items: Items, edges: seq<Edge>, i: nat, s: nat)
    requires Distinct(items) && Scanned(items, edges, i, s) && HasLink(items, i, s)
    ensures Scanned(items, edges + [LocalEdge(items, i, s)], i, s + 1)
  {
    hide Distinct;
    var e := LocalEdge(items, i, s);
    forall k | 0 <= k < |edges|
      ensures edges[k].child != e.child
    {
      assert edges[k] in edges;
      var i': nat, s': nat :| HasLink(items, i', s') && Before(i', s', i, s) && edges[k] == LocalEdge(items, i', s');
      if edges[k].child == e.child {
        SameOwner(items, i, s, i', s');
      }
    }
    forall x | x in edges + [e]
      ensures exists i': nat, s': nat :: HasLink(items, i', s') && Before(i', s', i, s + 1) && x == LocalEdge(items, i', s')
    {
      if x in edges {
        var i': nat, s': nat :| HasLink(items, i', s') && Before(i', s', i, s) && x == LocalEdge(items, i', s');
        assert Before(i', s', i, s + 1);
      } else {
        assert Before(i, s, i, s + 1);
      }
    }
    forall i': nat, s': nat | HasLink(items, i', s') && Before(i', s', i, s + 1)
      ensures LocalEdge(items, i', s') in edges + [e]
    {
      if !Before(i', s', i, s) {
        assert i' == i && s' == s;
      }
    }
  }

  lemma ScannedSkip(items: Items, edges: seq<Edge>, i: nat, s: nat, i': nat, s': nat)
    requires Scanned(items, edges, i, s)
    requires forall x: nat, y: nat :: HasLink(items, x, y) ==> (Before(x, y, i, s) <==> Before(x, y, i', s'))
    ensures Scanned(items, edges, i', s')
  {
    hide D.UniqueChildren;
    forall e | e in edges
      ensures exists x: nat, y: nat :: HasLink(items, x, y) && Before(x, y, i', s') && e == LocalEdge(items, x, y)
    {
      var x: nat, y: nat :| HasLink(items, x, y) && Before(x, y, i, s) && e == LocalEdge(items, x, y);
      assert Before(x, y, i', s');
    }
  }

  ghost predicate NoFencedLink(items: Items, fenced: set<ObjectId>) {
    forall i: nat, s: nat :: HasLink(items, i, s) ==> items[i].value.root !in fenced
  }

  /** The upgraded forest agrees with the tables it was read from. */
  lemma ScannedAgrees(items: Items, edges: seq<Edge>, fenced: set<ObjectId>)
    requires Loaded(items) && TablesOk(items, |items|) && Scanned(items, edges, |items|, 0)
    ensures Agrees(items, edges, fenced) <==> NoFencedLink(items, fenced)
  {
    hide Distinct, D.ParentOf, Lookup, MayDerive, D.UniqueChildren, TableOk, Get, IsMailbox, AttachmentsOk;
    assert TablesAgree(items, edges) by {
      forall i: nat, s: nat | IsMember(items, i) && s < CapTables.SLOTS
        ensures LinkOk(edges, items[i].value, s)
      {
        assert TableOk(items[i].value.table);
        LocalParent(items, edges, |items|, 0, i, s);
        ParentInRange(items[i].value.table, s);
        assert HasLink(items, i, s) ==> Before(i, s, |items|, 0);
      }
    }
    forall i: nat, s: nat | HasLink(items, i, s)
      ensures Resolves(items, fenced, LocalEdge(items, i, s)) <==> items[i].value.root !in fenced
      ensures LocalEdge(items, i, s) in edges
    {
      var e := LocalEdge(items, i, s);
      assert Before(i, s, |items|, 0);
      LocalRefsOk(items, |items|, i, s);
      LocalResolves(items, i, s);
    }
  }

  lemma LocalResolves(items: Items, i: nat, s: nat)
    requires Distinct(items) && HasLink(items, i, s) && D.RefOk(LocalEdge(items, i, s).parent) && D.RefOk(LocalEdge(items, i, s).child)
    ensures var m, e := items[i].value, LocalEdge(items, i, s);
            Lookup(items, e.parent) == Get(m.table, m.table.parents[s]) && Lookup(items, e.child) == Get(m.table, s)
  {
    hide Distinct, Lookup, Get;
    var e := LocalEdge(items, i, s);
    LookupAt(items, i, e.parent);
    LookupAt(items, i, e.child);
  }

  /** Adds one member's local links. */
  method ScanMember(items: Items, i: nat, graph: D.DerivationTable) returns (ok: bool)
    requires Loaded(items) && IsMember(items, i) && TablesOk(items, i)
    requires graph.Shaped() && graph.TableOk() && Scanned(items, graph.Edges(), i, 0) && graph.count <= i * CapTables.SLOTS
    modifies graph, graph.records
    ensures graph.Shaped()
    ensures ok <==> TableOk(items[i].value.table)
    ensures ok ==> graph.TableOk() && Scanned(items, graph.Edges(), i, CapTables.SLOTS) && graph.count <= (i + 1) * CapTables.SLOTS
  {
    hide Loaded, Scanned, TableOk, D.Forest;
    ok := IsValid(items[i].value.table);
    if !ok {
      return;
    }
    LoadedFacts(items, i);
    var m := items[i].value;
    var s := 0;
    while s < CapTables.SLOTS
      invariant 0 <= s <= CapTables.SLOTS && graph.Shaped() && graph.TableOk() && graph.count <= i * CapTables.SLOTS + s
      invariant Scanned(items, graph.Edges(), i, s)
    {
      var p := m.table.parents[s];
      ParentInRange(m.table, s);
      ghost var edges := graph.Edges();
      if p != NONE {
        ScannedNext(items, edges, i, s);
        ScannedForest(items, edges + [LocalEdge(items, i, s)], i, s + 1, i + 1);
        var added := graph.Add(RefOf(m, p), RefOf(m, s));
      } else {
        ScannedSkip(items, edges, i, s, i, s + 1);
      }
      s := s + 1;
    }
  }

  lemma LoadedFacts(items: Items, i: nat)
    requires Loaded(items) && IsMember(items, i)
    ensures |items| == COMPONENT_MAX && Distinct(items) && i < COMPONENT_MAX
  {
  }

  /** Collects every local link; well-formed tables never overflow the forest. */
  method ScanMembers(items: Items) returns (ok: bool, lineage: seq<Edge>)
    requires Loaded(items)
    ensures ok <==> TablesOk(items, |items|)
    ensures ok ==> D.Forest(lineage) && Scanned(items, lineage, |items|, 0)
  {
    hide Loaded, Scanned, TableOk, D.Forest, D.UniqueChildren;
    var graph := new D.DerivationTable();
    NothingScanned(items);
    lineage := [];
    var i := 0;
    while i < |items|
      invariant 0 <= i <= |items| && graph.Shaped() && graph.TableOk() && graph.count <= i * CapTables.SLOTS
      invariant fresh(graph) && fresh(graph.records)
      invariant TablesOk(items, i) && Scanned(items, graph.Edges(), i, 0)
    {
      if items[i].Some? {
        ok := ScanMember(items, i, graph);
        if !ok {
          return;
        }
        ScannedSkip(items, graph.Edges(), i, CapTables.SLOTS, i + 1, 0);
      } else {
        ScannedSkip(items, graph.Edges(), i, 0, i + 1, 0);
      }
      i := i + 1;
    }
    ok, lineage := true, graph.records[..graph.count];
  }

  lemma NothingScanned(items: Items)
    ensures Scanned(items, [], 0, 0)
  {
  }

  lemma LoadedAgrees(items: Items, lineage: seq<Edge>, fenced: set<ObjectId>)
    requires Loaded(items) && D.Forest(lineage) && Agrees(items, lineage, fenced)
    ensures DomainOk(items, lineage)
  {
    hide Distinct, D.Forest, Lookup, MayDerive, LinksOk, TableOk, IsMailbox, AttachmentsOk;
    forall e | e in lineage
      ensures EdgeOk(items, e)
    {
      assert Resolves(items, fenced, e);
    }
  }

  function ImageOf(items: Items, lineage: seq<Edge>, contents: map<ObjectId, seq<Byte>>): Disk {
    Disk(seq(|items|, i requires 0 <= i < |items| => if items[i].Some? then Some(items[i].value.table) else None),
         seq(|items|, i requires 0 <= i < |items| => if items[i].Some? then Some(items[i].value.mailbox) else None),
         lineage, contents)
  }

  /**
   * Opens a domain over loaded components. Without a stored forest, one is made from the local
   * links and stored; that fails only for a malformed table, a fence or the store.
   */
  method Open(items: Items, stored: Option<seq<Edge>>, fenced: set<ObjectId>, contents: map<ObjectId, seq<Byte>>, outcome: Outcome)
    returns (domain: CapabilityDomain?)
    requires Loaded(items) && (stored.Some? ==> D.Forest(stored.value))
    ensures stored.Some? ==> (domain != null <==> Agrees(items, stored.value, fenced))
    ensures stored.None? ==> (domain != null <==> TablesOk(items, |items|) && outcome.Committed? && NoFencedLink(items, fenced))
    ensures domain != null ==> fresh(domain) && domain.Valid() && !domain.active && domain.items == items && domain.fenced == fenced
    ensures domain != null && stored.Some? ==> domain.lineage == stored.value
    ensures domain != null && stored.None? ==> Scanned(items, domain.lineage, |items|, 0)
  {
    hide Loaded, Scanned, TableOk, D.Forest, D.UniqueChildren, Agrees, NoFencedLink, DomainOk;
    domain := null;
    var lineage;
    if stored.Some? {
      lineage := stored.value;
    } else {
      var ok;
      ok, lineage := ScanMembers(items);
      if !ok || !outcome.Committed? {
        return;
      }
      ScannedAgrees(items, lineage, fenced);
    }
    var matches := GraphMatches(items, lineage, fenced);
    if matches {
      LoadedAgrees(items, lineage, fenced);
      domain := new CapabilityDomain(items, lineage, fenced, ImageOf(items, lineage, contents));
    }
  }
}
