/** The global derivation forest: a bounded table of parent/child edges, checked and pruned in place. */
module Derivations {
  import opened ObjectIds

  const DERIVATION_MAX: nat := 64
  const TABLE_SLOTS: nat := 16

  /** A capability slot: its owner, index and generation. */
  datatype Ref = Ref(component: ObjectId, slot: nat, generation: nat)

  datatype Edge = Edge(parent: Ref, child: Ref)

  const ZERO_REF := Ref(ObjectId(0, 0), 0, 0)
  const ZERO_EDGE := Edge(ZERO_REF, ZERO_REF)

  predicate RefOk(r: Ref) {
    !IsZero(r.component) && r.slot < TABLE_SLOTS && r.generation != 0
  }

  // ---- Ancestry ------------------------------------------------------------------------------

  /** The first edge leading to `child`. */
  function IndexOf(edges: seq<Edge>, child: Ref): (i: Option<nat>)
    ensures i.Some? ==> i.value < |edges| && edges[i.value].child == child
    ensures i.None? ==> forall k :: 0 <= k < |edges| ==> edges[k].child != child
  {
    if edges == [] then None
    else if edges[0].child == child then Some(0)
    else
      var rest := IndexOf(edges[1..], child);
      if rest.None? then None else Some(rest.value + 1)
  }

  function ParentOf(edges: seq<Edge>, child: Ref): (p: Option<Ref>) {
    var i := IndexOf(edges, child);
    if i.None? then None else Some(edges[i.value].parent)
  }

  /** The ancestor `n` steps up. */
  function Up(edges: seq<Edge>, r: Ref, n: nat): Option<Ref>
    decreases n
  {
    if n == 0 then Some(r)
    else
      var p := ParentOf(edges, r);
      if p.None? then None else Up(edges, p.value, n - 1)
  }

  ghost predicate UniqueChildren(edges: seq<Edge>) {
    forall i, j :: 0 <= i < j < |edges| ==> edges[i].child != edges[j].child
  }

  /** Nothing is its own ancestor. */
  ghost predicate Acyclic(edges: seq<Edge>) {
    forall r, n: nat :: n > 0 ==> Up(edges, r, n) != Some(r)
  }

  ghost predicate RefsOk(edges: seq<Edge>) {
    forall i :: 0 <= i < |edges| ==> RefOk(edges[i].parent) && RefOk(edges[i].child)
  }

  /** What the table is meant to hold. */
  ghost predicate Forest(edges: seq<Edge>) {
    |edges| <= DERIVATION_MAX && RefsOk(edges) && UniqueChildren(edges) && Acyclic(edges)
  }

  lemma UniqueParent(edges: seq<Edge>, i: nat)
    requires UniqueChildren(edges) && i < |edges|
    ensures IndexOf(edges, edges[i].child) == Some(i) && ParentOf(edges, edges[i].child) == Some(edges[i].parent)
  {
    var k := IndexOf(edges, edges[i].child);
    assert k.Some? && (k.value < i || i < k.value || k.value == i);
  }

  lemma {:induction false} UpAdds(edges: seq<Edge>, r: Ref, a: nat, b: nat)
    ensures Up(edges, r, a).Some? ==> Up(edges, r, a + b) == Up(edges, Up(edges, r, a).value, b)
    ensures Up(edges, r, a).None? ==> Up(edges, r, a + b).None?
    decreases a
  {
    if a > 0 && ParentOf(edges, r).Some? {
      UpAdds(edges, ParentOf(edges, r).value, a - 1, b);
    }
  }

  lemma {:induction false} CycleRepeats(edges: seq<Edge>, r: Ref, n: nat, k: nat)
    requires n > 0 && Up(edges, r, n) == Some(r)
    ensures Up(edges, r, k * n) == Some(r)
    decreases k
  {
    if k > 0 {
      CycleRepeats(edges, r, n, k - 1);
      assert k * n == (k - 1) * n + n;
      UpAdds(edges, r, (k - 1) * n, n);
    }
  }

  /** A walk that ends somewhere was not on a cycle. */
  lemma GroundedIsAcyclic(edges: seq<Edge>, r: Ref, n: nat, m: nat)
    requires n > 0 && Up(edges, r, n) == Some(r)
    ensures Up(edges, r, m).Some?
  {
    CycleRepeats(edges, r, n, m);
    assert m * n >= m;
    UpAdds(edges, r, m, m * n - m);
  }

  /** Two equal ancestors at different heights make a cycle. */
  lemma RepeatIsCycle(edges: seq<Edge>, r: Ref, i: nat, j: nat)
    requires i < j && Up(edges, r, i).Some? && Up(edges, r, i) == Up(edges, r, j)
    ensures !Acyclic(edges)
  {
    UpAdds(edges, r, i, j - i);
    var x := Up(edges, r, i).value;
    assert Up(edges, x, j - i) == Some(x);
  }

  // ---- Pigeonhole ------------------------------------------------------------------------------

  /** Among more numbers below `n` than `n` itself, two agree. */
  lemma {:induction false} Pigeonhole(s: seq<nat>, n: nat) returns (i: nat, j: nat)
    requires |s| > n && forall k :: 0 <= k < |s| ==> s[k] < n
    ensures i < j < |s| && s[i] == s[j]
    decreases n
  {
    var last := |s| - 1;
    if k :| 0 <= k < last && s[k] == s[last] {
      return k, last;
    }
    // Nothing else equals the last element: rename n - 1 to it and drop it.
    var smaller := seq(last, k requires 0 <= k < last => if s[k] == n - 1 then s[last] else s[k]);
    assert n > 0;
    i, j := Pigeonhole(smaller, n - 1);
  }

  /** The indices of the edges a walk of `n` steps from `r` follows. */
  function Steps(edges: seq<Edge>, r: Ref, n: nat): (s: seq<nat>)
    requires Up(edges, r, n).Some?
    ensures |s| == n && forall k :: 0 <= k < n ==> s[k] < |edges|
    decreases n
  {
    if n == 0 then []
    else [IndexOf(edges, r).value] + Steps(edges, ParentOf(edges, r).value, n - 1)
  }

  lemma {:induction false} StepAt(edges: seq<Edge>, r: Ref, n: nat, k: nat)
    requires Up(edges, r, n).Some? && k < n
    ensures Up(edges, r, k) == Some(edges[Steps(edges, r, n)[k]].child)
    decreases n
  {
    hide IndexOf;
    if k > 0 {
      StepAt(edges, ParentOf(edges, r).value, n - 1, k - 1);
    }
  }

  /** A walk longer than the table is on a cycle. */
  lemma LongWalkIsCycle(edges: seq<Edge>, r: Ref)
    requires Up(edges, r, |edges| + 1).Some?
    ensures !Acyclic(edges)
  {
    var s := Steps(edges, r, |edges| + 1);
    var i, j := Pigeonhole(s, |edges|);
    StepAt(edges, r, |edges| + 1, i);
    StepAt(edges, r, |edges| + 1, j);
    RepeatIsCycle(edges, r, i, j);
  }

  /** If every child's walk ends, nothing is on a cycle. */
  lemma AllGrounded(edges: seq<Edge>)
    requires forall i :: 0 <= i < |edges| ==> Up(edges, edges[i].child, |edges| + 1).None?
    ensures Acyclic(edges)
  {
    forall r, n: nat | n > 0
      ensures Up(edges, r, n) != Some(r)
    {
      if Up(edges, r, n) == Some(r) {
        assert IndexOf(edges, r).Some?;
        GroundedIsAcyclic(edges, r, n, |edges| + 1);
        assert false;
      }
    }
  }

  // ---- Removing edges --------------------------------------------------------------------------

  ghost predicate Descends(edges: seq<Edge>, root: Ref, r: Ref) {
    exists n: nat :: n > 0 && Up(edges, r, n) == Some(root)
  }

  /** The edges whose child is not in the list, in order. */
  function Kept(edges: seq<Edge>, gone: seq<Ref>): (kept: seq<Edge>)
    ensures |kept| <= |edges|
  {
    if edges == [] then []
    else
      var n := |edges| - 1;
      Kept(edges[..n], gone) + (if edges[n].child in gone then [] else [edges[n]])
  }

  lemma {:induction false} KeptMeans(edges: seq<Edge>, gone: seq<Ref>)
    ensures forall e :: e in Kept(edges, gone) <==> e in edges && e.child !in gone
    decreases |edges|
  {
    if edges != [] {
      var n := |edges| - 1;
      KeptMeans(edges[..n], gone);
      assert edges == edges[..n] + [edges[n]];
    }
  }

  lemma KeptNone(edges: seq<Edge>, gone: seq<Ref>)
    ensures Kept(edges[..0], gone) == []
  {
  }

  lemma KeptNext(edges: seq<Edge>, gone: seq<Ref>, i: nat)
    requires i < |edges|
    ensures Kept(edges[..i + 1], gone) == Kept(edges[..i], gone) + (if edges[i].child in gone then [] else [edges[i]])
  {
    assert edges[..i + 1][..i] == edges[..i];
  }

  lemma {:induction false} KeptUnique(edges: seq<Edge>, gone: seq<Ref>)
    requires UniqueChildren(edges)
    ensures UniqueChildren(Kept(edges, gone))
    decreases |edges|
  {
    if edges != [] {
      var n := |edges| - 1;
      KeptMeans(edges[..n], gone);
      KeptUnique(edges[..n], gone);
      var kept := Kept(edges[..n], gone);
      forall i | 0 <= i < |kept|
        ensures kept[i].child != edges[n].child
      {
        assert kept[i] in edges[..n];
      }
    }
  }

  lemma KeptParent(edges: seq<Edge>, sub: seq<Edge>, r: Ref)
    requires UniqueChildren(edges) && forall e :: e in sub ==> e in edges
    ensures ParentOf(sub, r).Some? ==> ParentOf(sub, r) == ParentOf(edges, r)
  {
    var i := IndexOf(sub, r);
    if i.Some? {
      assert sub[i.value] in edges;
      var k :| 0 <= k < |edges| && edges[k] == sub[i.value];
      UniqueParent(edges, k);
    }
  }

  lemma {:induction false} KeptUp(edges: seq<Edge>, sub: seq<Edge>, r: Ref, n: nat)
    requires UniqueChildren(edges) && forall e :: e in sub ==> e in edges
    ensures Up(sub, r, n).Some? ==> Up(sub, r, n) == Up(edges, r, n)
    decreases n
  {
    if n > 0 {
      KeptParent(edges, sub, r);
      if ParentOf(sub, r).Some? {
        KeptUp(edges, sub, ParentOf(sub, r).value, n - 1);
      }
    }
  }

  /** Pruning a forest leaves a forest. */
  lemma KeptForest(edges: seq<Edge>, gone: seq<Ref>)
    requires Forest(edges)
    ensures Forest(Kept(edges, gone))
  {
    var kept := Kept(edges, gone);
    KeptMeans(edges, gone);
    KeptUnique(edges, gone);
    forall i | 0 <= i < |kept|
      ensures RefOk(kept[i].parent) && RefOk(kept[i].child)
    {
      assert kept[i] in edges;
    }
    forall r, n: nat | n > 0
      ensures Up(kept, r, n) != Some(r)
    {
      KeptUp(edges, kept, r, n);
    }
  }

  /** Closed under children of `root` and of its own members. */
  ghost predicate Closed(edges: seq<Edge>, root: Ref, list: seq<Ref>) {
    forall i :: 0 <= i < |edges| ==> edges[i].child in list || (edges[i].parent != root && edges[i].parent !in list)
  }

  /** A closed list holds every descendant. */
  lemma {:induction false} ClosedHasAll(edges: seq<Edge>, root: Ref, list: seq<Ref>, r: Ref, n: nat)
    requires Closed(edges, root, list) && n > 0 && Up(edges, r, n) == Some(root)
    ensures r in list
    decreases n
  {
    var i := IndexOf(edges, r).value;
    assert edges[i].child == r;
    if n > 1 {
      ClosedHasAll(edges, root, list, edges[i].parent, n - 1);
    } else {
      assert Up(edges, r, 1) == Some(edges[i].parent);
    }
  }

  lemma ChildDescends(edges: seq<Edge>, root: Ref, i: nat)
    requires UniqueChildren(edges) && i < |edges|
    requires edges[i].parent == root || Descends(edges, root, edges[i].parent)
    ensures Descends(edges, root, edges[i].child)
  {
    UniqueParent(edges, i);
    if edges[i].parent == root {
      assert Up(edges, edges[i].child, 1) == Up(edges, edges[i].parent, 0) == Some(root);
    } else {
      var n: nat :| n > 0 && Up(edges, edges[i].parent, n) == Some(root);
      assert Up(edges, edges[i].child, n + 1) == Some(root);
    }
  }

  ghost predicate NoRepeats(list: seq<Ref>) {
    forall i, j :: 0 <= i < j < |list| ==> list[i] != list[j]
  }

  /** Distinct children cannot outnumber the edges. */
  lemma {:induction false} FewChildren(edges: seq<Edge>, list: seq<Ref>)
    requires NoRepeats(list) && forall r :: r in list ==> IndexOf(edges, r).Some?
    ensures |list| <= |edges|
  {
    if |list| > |edges| {
      var s := seq(|list|, k requires 0 <= k < |list| && list[k] in list => IndexOf(edges, list[k]).value);
      var i, j := Pigeonhole(s, |edges|);
    }
  }

  /** Removing in two steps is removing at once. */
  lemma {:induction false} KeptAgain(edges: seq<Edge>, first: seq<Ref>, second: seq<Ref>, all: seq<Ref>)
    requires forall r :: r in all <==> r in first || r in second
    ensures Kept(Kept(edges, first), second) == Kept(edges, all)
    decreases |edges|
  {
    if edges != [] {
      var n := |edges| - 1;
      var prefix := Kept(edges[..n], first);
      KeptAgain(edges[..n], first, second, all);
      var kept := prefix + [edges[n]];
      assert kept[..|kept| - 1] == prefix && kept[|kept| - 1] == edges[n];
      assert edges[n].child in first ==> Kept(edges, first) == prefix;
    }
  }

  lemma {:induction false} KeptUnlisted(edges: seq<Edge>, gone: seq<Ref>)
    requires forall i :: 0 <= i < |edges| ==> edges[i].child !in gone
    ensures Kept(edges, gone) == edges
    decreases |edges|
  {
    if edges != [] {
      KeptUnlisted(edges[..|edges| - 1], gone);
    }
  }

  lemma KeptLast(edges: seq<Edge>, gone: seq<Ref>)
    requires edges != []
    ensures var n := |edges| - 1; Kept(edges, gone) == Kept(edges[..n], gone) + if edges[n].child in gone then [] else [edges[n]]
  {
  }

  lemma {:induction false} KeptSplit(edges: seq<Edge>, gone: seq<Ref>, i: nat)
    requires i <= |edges|
    ensures Kept(edges, gone) == Kept(edges[..i], gone) + Kept(edges[i..], gone)
    decreases |edges|
  {
    hide Kept;
    if i == |edges| {
      assert edges[..i] == edges && edges[i..] == edges[..0];
      KeptNone(edges, gone);
    } else {
      var n, tail := |edges| - 1, edges[i..];
      KeptSplit(edges[..n], gone, i);
      assert edges[..n][..i] == edges[..i] && edges[..n][i..] == tail[..n - i] && tail[n - i] == edges[n];
      KeptLast(edges, gone);
      KeptLast(tail, gone);
    }
  }

  /** Takes out the one edge leading to `child`, if there is one. */
  method Unhook(edges: seq<Edge>, child: Ref) returns (rest: seq<Edge>)
    requires UniqueChildren(edges)
    ensures rest == Kept(edges, [child])
  {
    var i := 0;
    while i < |edges|
      invariant 0 <= i <= |edges| && forall k :: 0 <= k < i ==> edges[k].child != child
    {
      if edges[i].child == child {
        KeptSplit(edges, [child], i);
        KeptSplit(edges[i..], [child], 1);
        KeptUnlisted(edges[..i], [child]);
        KeptUnlisted(edges[i + 1..], [child]);
        assert edges[i..][1..] == edges[i + 1..] && edges[i..][..1] == [edges[i]] && [edges[i]][..0] == [];
        return edges[..i] + edges[i + 1..];
      }
      i := i + 1;
    }
    KeptUnlisted(edges, [child]);
    return edges;
  }

  // ---- The table --------------------------------------------------------------------------------

  class DerivationTable {
    const records: array<Edge>
    var count: nat

    ghost predicate Shaped()
      reads this
    {
      records.Length == DERIVATION_MAX
    }

    ghost function Edges(): seq<Edge>
      requires Shaped() && count <= DERIVATION_MAX
      reads this, records
    {
      records[..count]
    }

    /** In range, zero behind the last edge, and a forest. */
    ghost predicate TableOk()
      requires Shaped()
      reads this, records
    {
      count <= DERIVATION_MAX && (forall i :: count <= i < DERIVATION_MAX ==> records[i] == ZERO_EDGE) && Forest(Edges())
    }

    constructor ()
      ensures Shaped() && TableOk() && Edges() == [] && fresh(records)
    {
      records := new Edge[DERIVATION_MAX](_ => ZERO_EDGE);
      count := 0;
      new;
      EmptyForest();
    }

    /** A table holding these edges. */
    constructor Of(edges: seq<Edge>)
      requires Forest(edges)
      ensures Shaped() && TableOk() && Edges() == edges && fresh(records)
    {
      records := new Edge[DERIVATION_MAX](i => if 0 <= i < |edges| then edges[i] else ZERO_EDGE);
      count := |edges|;
      new;
      assert Edges() == edges;
    }

    method FindChild(child: Ref) returns (index: Option<nat>)
      requires Shaped() && count <= DERIVATION_MAX
      ensures index == IndexOf(Edges(), child)
    {
      var i := 0;
      while i < count
        invariant 0 <= i <= count
        invariant forall k :: 0 <= k < i ==> records[k].child != child
      {
        if records[i].child == child {
          FirstIndex(Edges(), child, i);
          return Some(i);
        }
        i := i + 1;
      }
      assert IndexOf(Edges(), child).None?;
      return None;
    }

    /** Whether some earlier edge leads to the same child. */
    method RepeatsChild(index: nat) returns (repeated: bool)
      requires Shaped() && index < count <= DERIVATION_MAX
      ensures repeated <==> exists i :: 0 <= i < index && records[i].child == records[index].child
    {
      var other := 0;
      while other < index
        invariant 0 <= other <= index
        invariant forall i :: 0 <= i < other ==> records[i].child != records[index].child
      {
        if records[other].child == records[index].child {
          return true;
        }
        other := other + 1;
      }
      return false;
    }

    /** Walks up at most `count` steps; the walk ends exactly if the child is on no cycle. */
    method WalkEnds(index: nat) returns (ends: bool)
      requires Shaped() && index < count <= DERIVATION_MAX
      requires forall k :: 0 <= k < index ==> records[k].child != records[index].child
      ensures ends ==> Up(Edges(), records[index].child, count + 1).None?
      ensures !ends ==> !Acyclic(Edges())
    {
      hide Acyclic, IndexOf;
      ghost var edges, child := Edges(), records[index].child;
      FirstIndex(edges, child, index);
      var current := records[index].parent;
      var depth := 0;
      UpOne(edges, child);
      while depth < count
        invariant 0 <= depth <= count && Edges() == edges
        invariant Up(edges, child, depth + 1) == Some(current)
      {
        if current == records[index].child {
          CycleIsCycle(edges, child, depth + 1);
          return false;
        }
        var parent := FindChild(current);
        UpNext(edges, child, depth + 1, current);
        if parent.None? {
          UpAdds(edges, child, depth + 2, count + 1 - (depth + 2));
          return true;
        }
        IndexInRange(edges, current);
        current := records[parent.value].parent;
        depth := depth + 1;
      }
      LongWalkIsCycle(edges, child);
      return false;
    }

    /** Accepts exactly the tables that hold a forest. */
    method IsValid() returns (ok: bool)
      requires Shaped()
      ensures ok <==> TableOk()
    {
      if count > DERIVATION_MAX {
        return false;
      }
      var index := count;
      while index < DERIVATION_MAX
        invariant count <= index <= DERIVATION_MAX
        invariant forall i :: count <= i < index ==> records[i] == ZERO_EDGE
      {
        if records[index] != ZERO_EDGE {
          return false;
        }
        index := index + 1;
      }
      ok := IsForest();
    }

    method IsForest() returns (ok: bool)
      requires Shaped() && count <= DERIVATION_MAX
      ensures ok <==> Forest(Edges())
    {
      hide Acyclic, Up, IndexOf, RefOk;
      ghost var edges := Edges();
      var index := 0;
      while index < count
        invariant 0 <= index <= count && Edges() == edges
        invariant RefsOk(edges[..index]) && UniqueChildren(edges[..index])
        invariant forall i :: 0 <= i < index ==> Up(edges, edges[i].child, count + 1).None?
      {
        if !RefOk(records[index].parent) || !RefOk(records[index].child) {
          assert !RefsOk(edges);
          return false;
        }
        if records[index].parent == records[index].child {
          SelfLoop(edges, index);
          return false;
        }
        var repeated := RepeatsChild(index);
        if repeated {
          return false;
        }
        var ends := WalkEnds(index);
        if !ends {
          return false;
        }
        index := index + 1;
      }
      assert edges[..index] == edges;
      AllGrounded(edges);
      return true;
    }

    /** Adds an edge if that leaves a forest; otherwise nothing changes. */
    method Add(parent: Ref, child: Ref) returns (ok: bool)
      requires Shaped()
      modifies this, records
      ensures ok <==> old(TableOk()) && Forest(old(Edges()) + [Edge(parent, child)])
      ensures ok ==> TableOk() && Edges() == old(Edges()) + [Edge(parent, child)]
      ensures !ok ==> count == old(count) && records[..] == old(records[..])
    {
      hide Acyclic, Up, IndexOf, RefOk;
      var valid := IsValid();
      if !valid {
        return false;
      }
      ghost var edges, e := Edges(), Edge(parent, child);
      assert (edges + [e])[|edges|] == e;
      var found := FindChild(child);
      IndexInRange(edges, child);
      if !RefOk(parent) || !RefOk(child) || count == DERIVATION_MAX {
        return false;
      }
      if parent == child {
        SelfLoop(edges + [e], |edges|);
        return false;
      }
      if found.Some? {
        FoundRepeats(edges, e);
        return false;
      }
      ghost var before := records[..];
      records[count] := Edge(parent, child);
      count := count + 1;
      assert Edges() == edges + [e];
      ok := IsValid();
      if !ok {
        count := count - 1;
        records[count] := ZERO_EDGE;
        assert records[..] == before;
      }
    }

    method Parent(child: Ref) returns (parent: Option<Ref>)
      requires Shaped()
      ensures parent == if TableOk() && RefOk(child) then ParentOf(Edges(), child) else None
    {
      hide Acyclic, Up, IndexOf, RefOk;
      if !RefOk(child) {
        return None;
      }
      var valid := IsValid();
      if !valid {
        return None;
      }
      var index := FindChild(child);
      IndexInRange(Edges(), child);
      if index.None? {
        return None;
      }
      return Some(records[index.value].parent);
    }

    /** One pass over the edges, taking in children of what was already found. */
    method Pass(root: Ref, found: seq<Ref>) returns (list: seq<Ref>, changed: bool)
      requires Shaped() && count <= DERIVATION_MAX && UniqueChildren(Edges())
      requires Collected(Edges(), root, found)
      ensures Collected(Edges(), root, list) && found <= list
      ensures changed <==> |list| > |found|
      ensures !changed ==> list == found && Closed(Edges(), root, list)
    {
      hide UniqueChildren;
      list, changed := found, false;
      var index := 0;
      while index < count
        invariant 0 <= index <= count
        invariant Collected(Edges(), root, list) && found <= list
        invariant changed <==> |list| > |found|
        invariant !changed ==> Closed(Edges()[..index], root, found)
      {
        var e := records[index];
        if e.child !in list && (e.parent == root || e.parent in list) {
          CollectNext(Edges(), root, list, index);
          list, changed := list + [e.child], true;
        }
        index := index + 1;
      }
      assert Edges()[..index] == Edges();
    }

    /** All descendants, found by repeating passes until nothing is added. */
    method Descendants(root: Ref) returns (list: seq<Ref>)
      requires Shaped() && count <= DERIVATION_MAX && UniqueChildren(Edges())
      ensures NoRepeats(list) && |list| <= count
      ensures forall r :: r in list <==> Descends(Edges(), root, r)
    {
      hide UniqueChildren;
      list := [];
      NothingCollected(Edges(), root);
      var changed := true;
      while changed
        invariant Collected(Edges(), root, list) && |list| <= count
        invariant !changed ==> Closed(Edges(), root, list)
        decreases changed, count - |list|
      {
        list, changed := Pass(root, list);
        CollectedFew(Edges(), root, list);
      }
      CollectedExactly(Edges(), root, list);
    }

    /** Moves the kept edges to the front, in order. */
    method Squeeze(gone: seq<Ref>) returns (write: nat)
      requires Shaped() && count <= DERIVATION_MAX
      modifies records
      ensures write <= count && records[..write] == Kept(old(Edges()), gone) && records[count..] == old(records[count..])
    {
      hide Kept;
      ghost var edges := Edges();
      KeptNone(edges, gone);
      var read := 0;
      write := 0;
      while read < count
        invariant 0 <= write <= read <= count == |edges|
        invariant records[..write] == Kept(edges[..read], gone)
        invariant forall i :: read <= i < count ==> records[i] == edges[i]
        invariant records[count..] == old(records[count..])
      {
        KeptNext(edges, gone, read);
        if records[read].child !in gone {
          records[write] := records[read];
          write := write + 1;
        }
        read := read + 1;
      }
      assert edges[..read] == edges;
    }

    method ZeroFrom(first: nat)
      requires Shaped() && first <= count <= DERIVATION_MAX
      modifies records
      ensures records[..first] == old(records[..first])
      ensures forall i :: first <= i < count ==> records[i] == ZERO_EDGE
      ensures forall i :: count <= i < DERIVATION_MAX ==> records[i] == old(records[i])
    {
      var last := first;
      while last < count
        invariant first <= last <= count
        invariant records[..first] == old(records[..first])
        invariant forall i :: first <= i < last ==> records[i] == ZERO_EDGE
        invariant forall i :: last <= i < DERIVATION_MAX ==> records[i] == old(records[i])
      {
        records[last] := ZERO_EDGE;
        last := last + 1;
      }
    }

    /** Drops the edges into the listed children, closing the gaps in order. */
    method Compact(gone: seq<Ref>)
      requires Shaped() && count <= DERIVATION_MAX && (forall i :: count <= i < DERIVATION_MAX ==> records[i] == ZERO_EDGE)
      modifies this, records
      ensures count <= DERIVATION_MAX && (forall i :: count <= i < DERIVATION_MAX ==> records[i] == ZERO_EDGE)
      ensures Edges() == Kept(old(Edges()), gone)
    {
      hide Kept;
      var write := Squeeze(gone);
      assert forall i :: count <= i < DERIVATION_MAX ==> records[i] == records[count..][i - count] == old(records[i]);
      ZeroFrom(write);
      count := write;
    }

    /** Removes exactly the descendants of `root`, or nothing if they would not fit the caller's buffer. */
    method RemoveSubtree(root: Ref, capacity: nat) returns (ok: bool, list: seq<Ref>)
      requires Shaped()
      modifies this, records
      ensures ok ==> old(TableOk()) && RefOk(root) && TableOk() && |list| <= capacity && NoRepeats(list)
      ensures ok ==> forall r :: r in list <==> Descends(old(Edges()), root, r)
      ensures ok ==> Edges() == Kept(old(Edges()), list)
      ensures !ok ==> count == old(count) && records[..] == old(records[..])
      ensures !ok && old(TableOk()) && RefOk(root) ==>
                NoRepeats(list) && |list| > capacity && forall r :: r in list <==> Descends(old(Edges()), root, r)
    {
      hide Acyclic, UniqueChildren, RefsOk, Descends, NoRepeats, Kept, RefOk;
      list := [];
      var valid := IsValid();
      if !valid || !RefOk(root) {
        return false, list;
      }
      list := Descendants(root);
      if |list| > capacity {
        return false, list;
      }
      KeptForest(Edges(), list);
      Compact(list);
      ok := true;
    }
  }

  /** A repetition-free list of descendants. */
  ghost predicate Collected(edges: seq<Edge>, root: Ref, list: seq<Ref>) {
    NoRepeats(list) && forall r :: r in list ==> Descends(edges, root, r)
  }

  lemma NothingCollected(edges: seq<Edge>, root: Ref)
    ensures Collected(edges, root, [])
  {
  }

  lemma CollectNext(edges: seq<Edge>, root: Ref, list: seq<Ref>, i: nat)
    requires UniqueChildren(edges) && i < |edges| && Collected(edges, root, list) && edges[i].child !in list
    requires edges[i].parent == root || edges[i].parent in list
    ensures Collected(edges, root, list + [edges[i].child])
  {
    ChildDescends(edges, root, i);
  }

  lemma CollectedFew(edges: seq<Edge>, root: Ref, list: seq<Ref>)
    requires Collected(edges, root, list)
    ensures |list| <= |edges|
  {
    forall r | r in list
      ensures IndexOf(edges, r).Some?
    {
      var n: nat :| n > 0 && Up(edges, r, n) == Some(root);
    }
    FewChildren(edges, list);
  }

  lemma CollectedExactly(edges: seq<Edge>, root: Ref, list: seq<Ref>)
    requires Collected(edges, root, list) && Closed(edges, root, list)
    ensures NoRepeats(list) && |list| <= |edges|
    ensures forall r :: r in list <==> Descends(edges, root, r)
  {
    CollectedFew(edges, root, list);
    forall r | Descends(edges, root, r)
      ensures r in list
    {
      var n: nat :| n > 0 && Up(edges, r, n) == Some(root);
      ClosedHasAll(edges, root, list, r, n);
    }
  }

  lemma SelfLoop(edges: seq<Edge>, i: nat)
    requires i < |edges| && edges[i].parent == edges[i].child
    ensures !(UniqueChildren(edges) && Acyclic(edges))
  {
    if UniqueChildren(edges) {
      UniqueParent(edges, i);
      UpOne(edges, edges[i].child);
      CycleIsCycle(edges, edges[i].child, 1);
    }
  }

  lemma FoundRepeats(edges: seq<Edge>, e: Edge)
    requires IndexOf(edges, e.child).Some?
    ensures !UniqueChildren(edges + [e])
  {
    var i := IndexOf(edges, e.child).value;
    assert (edges + [e])[i].child == (edges + [e])[|edges|].child;
  }

  lemma UpOne(edges: seq<Edge>, r: Ref)
    ensures Up(edges, r, 1) == ParentOf(edges, r)
  {
    assert ParentOf(edges, r).Some? ==> Up(edges, ParentOf(edges, r).value, 0) == ParentOf(edges, r);
  }

  lemma UpNext(edges: seq<Edge>, r: Ref, n: nat, x: Ref)
    requires Up(edges, r, n) == Some(x)
    ensures Up(edges, r, n + 1) == ParentOf(edges, x)
  {
    UpAdds(edges, r, n, 1);
    UpOne(edges, x);
  }

  lemma CycleIsCycle(edges: seq<Edge>, r: Ref, n: nat)
    requires n > 0 && Up(edges, r, n) == Some(r)
    ensures !Acyclic(edges)
  {
  }

  lemma IndexInRange(edges: seq<Edge>, r: Ref)
    ensures IndexOf(edges, r).Some? ==> IndexOf(edges, r).value < |edges|
    ensures IndexOf(edges, r).Some? ==> ParentOf(edges, r) == Some(edges[IndexOf(edges, r).value].parent)
    ensures IndexOf(edges, r).None? <==> ParentOf(edges, r).None?
  {
  }

  lemma {:induction false} FirstIndex(edges: seq<Edge>, child: Ref, i: nat)
    requires i < |edges| && edges[i].child == child && forall k :: 0 <= k < i ==> edges[k].child != child
    ensures IndexOf(edges, child) == Some(i)
    decreases i
  {
    if i > 0 {
      FirstIndex(edges[1..], child, i - 1);
    }
  }

  lemma EmptyForest()
    ensures Forest([])
  {
    forall r, n: nat | n > 0
      ensures Up([], r, n) != Some(r)
    {
      assert ParentOf([], r).None?;
    }
  }
}
