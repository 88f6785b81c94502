/** Replicated values: a last-writer-wins register and an observed-remove set, merged pairwise. */
module Crdts {
  import opened ObjectIds

  const VALUE_MAX: nat := 256
  const DOTS_MAX: nat := 16
  const LWW: nat := 1
  const ORSET: nat := 2

  /** Who did something, and its place in what they did. */
  datatype Tag = Tag(node: nat, counter: nat)

  datatype Dot = Dot(value: nat, removed: bool)

  datatype State =
    | Lww(vector: seq<nat>, timestamp: nat, author: nat, value: seq<Byte>)
    | OrSet(vector: seq<nat>, dots: map<Tag, Dot>)

  function KindOf(s: State): nat {
    if s.Lww? then LWW else ORSET
  }

  function Larger(a: nat, b: nat): nat {
    if a > b then a else b
  }

  predicate Valid(s: State) {
    && |s.vector| == 2 && s.vector[0] <= UINT64_MAX && s.vector[1] <= UINT64_MAX
    && match s {
      case Lww(vector, timestamp, author, value) =>
        && author <= 1 && |value| <= VALUE_MAX && timestamp <= UINT64_MAX
        && if timestamp == 0 then value == [] && author == 0 && vector == [0, 0]
           else vector[author] != 0 && timestamp >= vector[0] && timestamp >= vector[1]
      case OrSet(vector, dots) =>
        && |dots| <= DOTS_MAX && forall t :: t in dots ==> t.node <= 1 && 0 < t.counter <= vector[t.node]
    }
  }

  function Init(kind: nat): Option<State> {
    if kind == LWW then Some(Lww([0, 0], 0, 0, []))
    else if kind == ORSET then Some(OrSet([0, 0], map[]))
    else None
  }

  // ---- Editing ---------------------------------------------------------------------------------

  datatype Edit = Set(value: seq<Byte>) | Add(item: nat) | Remove(item: nat)

  function Bumped(s: State, node: nat): seq<nat>
    requires |s.vector| == 2 && node <= 1
  {
    s.vector[node := s.vector[node] + 1]
  }

  function Edited(s: State, node: nat, e: Edit): Option<State> {
    if !Valid(s) || node > 1 || s.vector[node] == UINT64_MAX then None
    else match e
      case Set(value) =>
        if !s.Lww? || |value| > VALUE_MAX || s.timestamp == UINT64_MAX then None
        else Some(Lww(Bumped(s, node), s.timestamp + 1, node, value))
      case Add(item) =>
        if !s.OrSet? || |s.dots| == DOTS_MAX then None
        else Some(OrSet(Bumped(s, node), s.dots[Tag(node, s.vector[node] + 1) := Dot(item, false)]))
      case Remove(item) =>
        if !s.OrSet? then None
        else if forall t :: t in s.dots ==> s.dots[t].value != item || s.dots[t].removed then Some(s)
        else Some(OrSet(Bumped(s, node),
                        map t | t in s.dots :: Dot(s.dots[t].value, s.dots[t].removed || s.dots[t].value == item)))
  }

  // ---- Merging ---------------------------------------------------------------------------------

  function Joined(a: seq<nat>, b: seq<nat>): seq<nat>
    requires |a| == |b| == 2
  {
    [Larger(a[0], b[0]), Larger(a[1], b[1])]
  }

  /** The later write; of two at the same time, the one by the higher node. */
  predicate Wins(b: State, a: State)
    requires a.Lww? && b.Lww?
  {
    b.timestamp > a.timestamp || (b.timestamp == a.timestamp && b.author > a.author)
  }

  /** No dot with two values. */
  predicate Agree(a: map<Tag, Dot>, b: map<Tag, Dot>) {
    forall t :: t in a && t in b ==> a[t].value == b[t].value
  }

  /** Two values for what should be one write, or one dot. */
  predicate Clash(a: State, b: State) {
    match (a, b)
    case (Lww(_, s, x, v), Lww(_, t, y, w)) => s == t && x == y && v != w
    case (OrSet(_, c), OrSet(_, d)) => !Agree(c, d)
    case _ => false
  }

  function Union(a: map<Tag, Dot>, b: map<Tag, Dot>): map<Tag, Dot> {
    map t | t in a.Keys + b.Keys ::
      if t !in b then a[t] else if t !in a then b[t] else Dot(a[t].value, a[t].removed || b[t].removed)
  }

  function Winner(a: State, b: State): State
    requires a.Lww? && b.Lww?
  {
    if Wins(b, a) then b else a
  }

  function Merge(a: State, b: State): Option<State> {
    if !Valid(a) || !Valid(b) || KindOf(a) != KindOf(b) || Clash(a, b) then None
    else if a.Lww? then
      var w := Winner(a, b);
      Some(Lww(Joined(a.vector, b.vector), w.timestamp, w.author, w.value))
    else if |Union(a.dots, b.dots)| > DOTS_MAX then None
    else Some(OrSet(Joined(a.vector, b.vector), Union(a.dots, b.dots)))
  }

  lemma MergeIsValid(a: State, b: State)
    requires Merge(a, b).Some?
    ensures Valid(Merge(a, b).value) && KindOf(Merge(a, b).value) == KindOf(a) == KindOf(b)
    ensures |a.vector| == |b.vector| == 2 && Merge(a, b).value.vector == Joined(a.vector, b.vector)
  {
    hide Valid, Union, Clash;
    VectorsOk(a, b, b);
    if a.OrSet? {
      UnionIsValid(a, b);
    } else {
      WinnerIsValid(a, b);
    }
  }

  lemma UnionIsValid(a: State, b: State)
    requires Valid(a) && Valid(b) && a.OrSet? && b.OrSet? && |Union(a.dots, b.dots)| <= DOTS_MAX
    ensures Valid(OrSet(Joined(a.vector, b.vector), Union(a.dots, b.dots)))
  {
  }

  lemma WinnerIsValid(a: State, b: State)
    requires Valid(a) && Valid(b) && a.Lww? && b.Lww?
    ensures var w := Winner(a, b); Valid(Lww(Joined(a.vector, b.vector), w.timestamp, w.author, w.value))
  {
  }

  lemma UnionCommutes(a: map<Tag, Dot>, b: map<Tag, Dot>)
    ensures Agree(a, b) <==> Agree(b, a)
    ensures Agree(a, b) ==> Union(a, b) == Union(b, a)
  {
    assert Union(a, b).Keys == Union(b, a).Keys;
  }

  lemma MergeCommutes(a: State, b: State)
    ensures Merge(a, b) == Merge(b, a)
  {
    hide Valid, Agree, Union;
    VectorsOk(a, b, b);
    if Valid(a) && Valid(b) {
      assert Joined(a.vector, b.vector) == Joined(b.vector, a.vector);
    }
    if a.OrSet? && b.OrSet? {
      UnionCommutes(a.dots, b.dots);
    }
  }

  lemma MergeIsIdempotent(a: State)
    requires Valid(a)
    ensures Merge(a, a) == Some(a)
  {
    assert Joined(a.vector, a.vector) == a.vector;
    if a.OrSet? {
      assert Union(a.dots, a.dots) == a.dots;
    }
  }

  lemma UnionAssociates(a: map<Tag, Dot>, b: map<Tag, Dot>, c: map<Tag, Dot>)
    ensures Union(Union(a, b), c) == Union(a, Union(b, c))
  {
    assert Union(Union(a, b), c).Keys == Union(a, Union(b, c)).Keys;
  }

  lemma AgreeThrough(a: map<Tag, Dot>, b: map<Tag, Dot>, c: map<Tag, Dot>)
    requires Agree(a, b) && Agree(b, c)
    ensures Agree(Union(a, b), c) <==> Agree(a, c)
    ensures Agree(a, Union(b, c)) <==> Agree(a, c)
  {
    var ab, bc := Union(a, b), Union(b, c);
    assert forall t :: t in a ==> t in ab && ab[t].value == a[t].value;
    assert forall t :: t in ab && t !in a ==> t in b && ab[t].value == b[t].value;
    assert forall t :: t in c ==> t in bc && bc[t].value == c[t].value;
    assert forall t :: t in bc && t !in c ==> t in b && bc[t].value == b[t].value;
  }

  lemma SetsAssociate(a: State, b: State, c: State, x: State, y: State)
    requires a.OrSet? && Merge(a, b) == Some(x) && Merge(b, c) == Some(y) && Valid(x) && Valid(y)
    ensures Merge(x, c) == Merge(a, y)
  {
    hide Valid, Agree, Union;
    AgreeThrough(a.dots, b.dots, c.dots);
    UnionAssociates(a.dots, b.dots, c.dots);
    VectorsOk(a, b, c);
    assert Joined(Joined(a.vector, b.vector), c.vector) == Joined(a.vector, Joined(b.vector, c.vector));
  }

  lemma VectorsOk(a: State, b: State, c: State)
    ensures Valid(a) ==> |a.vector| == 2
    ensures Valid(b) ==> |b.vector| == 2
    ensures Valid(c) ==> |c.vector| == 2
  {
  }

  lemma RegistersAssociate(a: State, b: State, c: State, x: State, y: State)
    requires a.Lww? && Merge(a, b) == Some(x) && Merge(b, c) == Some(y) && Valid(x) && Valid(y)
    ensures Merge(x, c) == Merge(a, y)
  {
    hide Valid, Agree, Union;
    VectorsOk(a, b, c);
    assert Joined(Joined(a.vector, b.vector), c.vector) == Joined(a.vector, Joined(b.vector, c.vector));
  }

  /** However three states meet, if the first meetings succeed the last does or does not, alike. */
  lemma MergeAssociates(a: State, b: State, c: State)
    requires Merge(a, b).Some? && Merge(b, c).Some?
    ensures Merge(Merge(a, b).value, c) == Merge(a, Merge(b, c).value)
  {
    hide Valid, Merge;
    MergeIsValid(a, b);
    MergeIsValid(b, c);
    if a.OrSet? {
      SetsAssociate(a, b, c, Merge(a, b).value, Merge(b, c).value);
    } else {
      RegistersAssociate(a, b, c, Merge(a, b).value, Merge(b, c).value);
    }
  }

  lemma UnionAbsorbs(a: map<Tag, Dot>, b: map<Tag, Dot>)
    requires Agree(a, b)
    ensures Agree(a, Union(a, b)) && Union(a, Union(a, b)) == Union(a, b)
    ensures Agree(b, Union(a, b)) && Union(b, Union(a, b)) == Union(a, b)
  {
    assert Union(a, Union(a, b)).Keys == Union(a, b).Keys && Union(b, Union(a, b)).Keys == Union(a, b).Keys;
  }

  /** Merging back what already holds one's own state changes nothing further. */
  lemma MergeAbsorbs(a: State, b: State)
    requires Merge(a, b).Some?
    ensures Merge(b, Merge(a, b).value) == Merge(a, b)
    ensures Merge(a, Merge(a, b).value) == Merge(a, b)
  {
    hide Valid, Agree, Union;
    MergeIsValid(a, b);
    VectorsOk(a, b, b);
    assert Joined(b.vector, Joined(a.vector, b.vector)) == Joined(a.vector, b.vector);
    assert Joined(a.vector, Joined(a.vector, b.vector)) == Joined(a.vector, b.vector);
    if a.OrSet? {
      UnionAbsorbs(a.dots, b.dots);
    }
  }

  // ---- What merging and editing mean ---------------------------------------------------------------

  lemma UnionMeans(a: map<Tag, Dot>, b: map<Tag, Dot>)
    requires Agree(a, b)
    ensures forall t :: t in Union(a, b) <==> t in a || t in b
    ensures forall t :: t in Union(a, b) ==>
              && (Union(a, b)[t].removed <==> (t in a && a[t].removed) || (t in b && b[t].removed))
              && (t in a ==> Union(a, b)[t].value == a[t].value) && (t in b ==> Union(a, b)[t].value == b[t].value)
  {
  }

  /**
   * What a merge holds: of two sets, exactly the dots of either, removed exactly if either has
   * removed them; of two registers the later write, of two at one time that of the higher node.
   */
  lemma MergeMeans(a: State, b: State)
    requires Merge(a, b).Some?
    ensures var m := Merge(a, b).value;
            && |a.vector| == |b.vector| == |m.vector| == 2
            && (forall k :: 0 <= k < 2 ==> m.vector[k] >= a.vector[k] && m.vector[k] >= b.vector[k] && m.vector[k] in {a.vector[k], b.vector[k]})
            && (m.OrSet? ==>
                  && a.OrSet? && b.OrSet? && (forall t :: t in m.dots <==> t in a.dots || t in b.dots)
                  && (forall t :: t in m.dots ==>
                        && (m.dots[t].removed <==> (t in a.dots && a.dots[t].removed) || (t in b.dots && b.dots[t].removed))
                        && (t in a.dots ==> m.dots[t].value == a.dots[t].value) && (t in b.dots ==> m.dots[t].value == b.dots[t].value)))
            && (m.Lww? ==>
                  && a.Lww? && b.Lww?
                  && (a.timestamp > b.timestamp || (a.timestamp == b.timestamp && a.author >= b.author) ==>
                        m.timestamp == a.timestamp && m.author == a.author && m.value == a.value)
                  && (b.timestamp > a.timestamp || (b.timestamp == a.timestamp && b.author >= a.author) ==>
                        m.timestamp == b.timestamp && m.author == b.author && m.value == b.value))
  {
    hide Valid, Union;
    MergeIsValid(a, b);
    VectorsOk(a, b, b);
    if a.OrSet? {
      UnionMeans(a.dots, b.dots);
    }
  }

  /** An item is in a set if one of its dots is live. */
  ghost predicate Contains(s: State, item: nat) {
    s.OrSet? && exists t :: t in s.dots && s.dots[t].value == item && !s.dots[t].removed
  }

  /**
   * What an edit does. Setting leaves exactly that value; adding leaves one more dot, live and of
   * that item; removing leaves no live dot of that item; all else is as it was.
   */
  lemma EditedMeans(s: State, node: nat, e: Edit)
    requires Edited(s, node, e).Some?
    ensures var after := Edited(s, node, e).value;
            && node <= 1 && |s.vector| == |after.vector| == 2 && after.vector[1 - node] == s.vector[1 - node]
            && (e.Set? ==>
                  && s.Lww? && after.Lww? && after.value == e.value && after.author == node
                  && after.timestamp == s.timestamp + 1 && after.vector[node] == s.vector[node] + 1)
            && (e.Add? ==>
                  && s.OrSet? && after.OrSet? && after.vector[node] == s.vector[node] + 1
                  && var tag := Tag(node, s.vector[node] + 1);
                     && tag !in s.dots && tag in after.dots && after.dots[tag].value == e.item && !after.dots[tag].removed
                     && (forall t :: t != tag ==> (t in after.dots <==> t in s.dots))
                     && (forall t :: t in s.dots && t in after.dots ==> after.dots[t] == s.dots[t]))
            && (e.Remove? ==>
                  && s.OrSet? && after.OrSet? && (forall t :: t in after.dots <==> t in s.dots)
                  && after.vector[node] == (if Contains(s, e.item) then s.vector[node] + 1 else s.vector[node])
                  && (forall t :: t in after.dots ==>
                        if s.dots[t].value == e.item then after.dots[t] == Dot(e.item, true) else after.dots[t] == s.dots[t]))
  {
  }

  /** So sets behave as sets. */
  lemma EditsOfSets(s: State, node: nat, e: Edit, item: nat)
    requires Edited(s, node, e).Some? && s.OrSet?
    ensures Contains(Edited(s, node, e).value, item) <==> (e.Add? && e.item == item) || (Contains(s, item) && !(e.Remove? && e.item == item))
  {
    hide Edited;
    EditedMeans(s, node, e);
    var after := Edited(s, node, e).value;
    if e.Add? {
      var tag := Tag(node, s.vector[node] + 1);
      assert after.dots[tag].value == e.item;
    }
    if t :| t in s.dots && s.dots[t].value == item && !s.dots[t].removed {
      assert t in after.dots;
    }
    if t :| t in after.dots && after.dots[t].value == item && !after.dots[t].removed {
      assert t in s.dots || (e.Add? && e.item == item);
    }
  }

  /** Exactly when an edit is refused. */
  lemma EditedExactly(s: State, node: nat, e: Edit)
    requires Valid(s)
    ensures Edited(s, node, e).None? <==>
            || node > 1 || s.vector[node] == 0xFFFF_FFFF_FFFF_FFFF
            || (e.Set? && (!s.Lww? || |e.value| > 256 || s.timestamp == 0xFFFF_FFFF_FFFF_FFFF))
            || (e.Add? && (!s.OrSet? || |s.dots| == 16)) || (e.Remove? && !s.OrSet?)
  {
  }

  /** A later state of the same object: no dot vanishes, changes its item or comes back; no older write returns. */
  ghost predicate Rises(s: State, after: State) {
    && |s.vector| == |after.vector| == 2 && s.vector[0] <= after.vector[0] && s.vector[1] <= after.vector[1]
    && match s {
      case OrSet(_, dots) =>
        && after.OrSet?
        && forall t :: t in dots ==>
             t in after.dots && after.dots[t].value == dots[t].value && (dots[t].removed ==> after.dots[t].removed)
      case Lww(_, timestamp, author, value) =>
        && after.Lww?
        && (timestamp < after.timestamp
            || (timestamp == after.timestamp && (author < after.author || (author == after.author && value == after.value))))
    }
  }

  lemma MergeRises(a: State, b: State)
    requires Merge(a, b).Some?
    ensures Rises(a, Merge(a, b).value)
  {
    hide Merge;
    MergeMeans(a, b);
    MergeKind(a, b);
  }

  lemma MergeKind(a: State, b: State)
    requires Merge(a, b).Some?
    ensures a.OrSet? <==> Merge(a, b).value.OrSet?
  {
  }

  lemma EditRises(s: State, node: nat, e: Edit)
    requires Edited(s, node, e).Some?
    ensures Rises(s, Edited(s, node, e).value)
  {
    hide Edited, Contains;
    EditedMeans(s, node, e);
  }

  lemma RisesOn(a: State, b: State, c: State)
    requires Rises(a, b) && Rises(b, c)
    ensures Rises(a, c)
  {
  }

  lemma RisesSelf(s: State)
    requires |s.vector| == 2
    ensures Rises(s, s)
  {
  }

  // ---- What was ever written ---------------------------------------------------------------------

  /** Every write and every dot there ever was, by its tag. */
  datatype Log = Log(writes: map<Tag, seq<Byte>>, dots: map<Tag, nat>)

  const NO_LOG := Log(map[], map[])

  ghost predicate Known(s: State, log: Log) {
    match s
    case Lww(_, timestamp, author, value) =>
      timestamp > 0 ==> Tag(author, timestamp) in log.writes && log.writes[Tag(author, timestamp)] == value
    case OrSet(_, dots) => forall t :: t in dots ==> t in log.dots && log.dots[t] == dots[t].value
  }

  ghost function LogAdd(log: Log, s: State): Log {
    match s
    case Lww(_, timestamp, author, value) =>
      if timestamp == 0 then log else log.(writes := log.writes[Tag(author, timestamp) := value])
    case OrSet(_, dots) => log.(dots := log.dots + map t | t in dots :: dots[t].value)
  }

  ghost predicate Extends(log: Log, more: Log) {
    && (forall t :: t in log.writes ==> t in more.writes && more.writes[t] == log.writes[t])
    && (forall t :: t in log.dots ==> t in more.dots && more.dots[t] == log.dots[t])
  }

  lemma KnownStays(s: State, log: Log, more: Log)
    requires Known(s, log) && Extends(log, more)
    ensures Known(s, more)
  {
  }

  /** States of one history never contradict each other. */
  lemma KnownNeverClash(a: State, b: State, log: Log)
    requires Known(a, log) && Known(b, log) && Valid(a) && Valid(b)
    ensures !Clash(a, b)
  {
  }

  /** So only a full set stops a merge. */
  lemma MergeExactly(a: State, b: State, log: Log)
    requires Known(a, log) && Known(b, log) && Valid(a) && Valid(b) && KindOf(a) == KindOf(b)
    ensures Merge(a, b).Some? <==> (a.OrSet? && b.OrSet? ==> |a.dots.Keys + b.dots.Keys| <= DOTS_MAX)
    ensures Merge(a, b).Some? ==> Known(Merge(a, b).value, log)
  {
    KnownNeverClash(a, b, log);
    if a.OrSet? && b.OrSet? {
      assert Union(a.dots, b.dots).Keys == a.dots.Keys + b.dots.Keys;
      SameSize(Union(a.dots, b.dots));
    }
  }

  lemma {:induction false} SameSize(m: map<Tag, Dot>)
    ensures |m| == |m.Keys|
  {
  }

  /** How far a node got with an object. */
  ghost predicate WithinClock(log: Log, node: nat, timestamp: nat, counter: nat) {
    && (forall t :: t in log.writes && t.node == node ==> t.counter <= timestamp)
    && (forall t :: t in log.dots && t.node == node ==> t.counter <= counter)
  }

  function TimeOf(s: State): nat {
    if s.Lww? then s.timestamp else 0
  }

  /** An edit writes under a tag that was never used. */
  lemma EditIsFresh(s: State, node: nat, e: Edit, log: Log)
    requires Valid(s) && Known(s, log) && node <= 1 && WithinClock(log, node, TimeOf(s), s.vector[node]) && Edited(s, node, e).Some?
    ensures var after := Edited(s, node, e).value;
            && Valid(after) && KindOf(after) == KindOf(s) && Known(after, LogAdd(log, after)) && Extends(log, LogAdd(log, after))
            && WithinClock(LogAdd(log, after), node, TimeOf(after), after.vector[node])
            && after.vector[1 - node] == s.vector[1 - node] && after.vector[node] >= s.vector[node] && TimeOf(after) >= TimeOf(s)
  {
    hide Edited, Valid, WithinClock, LogAdd, Known, Extends;
    var after := Edited(s, node, e).value;
    if s.OrSet? {
      EditedDots(s, node, e, after);
      FreshDots(s, node, after, log);
    } else {
      FreshWrite(s, node, e, after, log);
    }
  }

  lemma FreshWrite(s: State, node: nat, e: Edit, after: State, log: Log)
    requires Valid(s) && s.Lww? && Known(s, log) && node <= 1 && WithinClock(log, node, s.timestamp, s.vector[node])
    requires Edited(s, node, e) == Some(after)
    ensures && Valid(after) && after.Lww? && Known(after, LogAdd(log, after)) && Extends(log, LogAdd(log, after))
            && WithinClock(LogAdd(log, after), node, after.timestamp, after.vector[node])
            && after.vector[1 - node] == s.vector[1 - node] && after.vector[node] >= s.vector[node] && after.timestamp >= s.timestamp
  {
  }

  lemma FreshDots(s: State, node: nat, after: State, log: Log)
    requires s.OrSet? && after.OrSet? && |s.vector| == |after.vector| == 2 && node <= 1
    requires Known(s, log) && WithinClock(log, node, 0, s.vector[node])
    requires forall t :: t in after.dots && t !in s.dots ==> t == Tag(node, s.vector[node] + 1) && after.vector[node] == s.vector[node] + 1
    requires forall t :: t in s.dots ==> t in after.dots && after.dots[t].value == s.dots[t].value
    requires after.vector[node] >= s.vector[node]
    ensures Known(after, LogAdd(log, after)) && Extends(log, LogAdd(log, after))
    ensures WithinClock(LogAdd(log, after), node, 0, after.vector[node])
  {
    assert forall t :: t in after.dots && t !in s.dots ==> t !in log.dots;
  }

  /** An edit of a set adds at most one dot, under the next tag, and changes no dot's value. */
  lemma EditedDots(s: State, node: nat, e: Edit, after: State)
    requires Valid(s) && s.OrSet? && Edited(s, node, e) == Some(after)
    ensures node <= 1 && after.OrSet? && Valid(after) && |s.vector| == |after.vector| == 2
    ensures forall t :: t in after.dots && t !in s.dots ==> t == Tag(node, s.vector[node] + 1) && after.vector[node] == s.vector[node] + 1
    ensures forall t :: t in s.dots ==> t in after.dots && after.dots[t].value == s.dots[t].value
    ensures after.vector[1 - node] == s.vector[1 - node] && after.vector[node] >= s.vector[node]
  {
    if e.Add? {
      var t := Tag(node, s.vector[node] + 1);
      assert t !in s.dots;
    } else {
      assert after.dots.Keys == s.dots.Keys;
      SameSize(after.dots);
      SameSize(s.dots);
    }
  }

  lemma EditElsewhere(s: State, node: nat, e: Edit, log: Log, other: nat, timestamp: nat, counter: nat)
    requires Valid(s) && Known(s, log) && node <= 1 && other != node && WithinClock(log, other, timestamp, counter) && Edited(s, node, e).Some?
    ensures WithinClock(LogAdd(log, Edited(s, node, e).value), other, timestamp, counter)
  {
    var after := Edited(s, node, e).value;
    if after.OrSet? {
      forall t | t in LogAdd(log, after).dots && t.node == other
        ensures t in log.dots
      {
        assert t in after.dots ==> t in s.dots;
      }
    }
  }
}
