/** Introsort: quicksort around a median, heap sort when it degenerates, insertion sort at the end. */
module Sorting {

  const SMALL: nat := 16

  type Comparison<!T> = (T, T) -> int

  // ---- Order -----------------------------------------------------------------------------------

  /** Signs flip with the arguments, and not being greater is transitive. */
  ghost predicate Preorder<T(!new)>(compare: Comparison<T>) {
    && (forall x, y :: compare(x, y) < 0 <==> compare(y, x) > 0)
    && (forall x, y, z :: compare(x, y) <= 0 && compare(y, z) <= 0 ==> compare(x, z) <= 0)
  }

  ghost predicate Ordered<T(!new)>(compare: Comparison<T>, s: seq<T>, lo: nat, hi: nat) {
    hi <= |s| && forall i, j :: lo <= i <= j < hi ==> compare(s[i], s[j]) <= 0
  }

  /** Nothing in the first range exceeds anything in the second. */
  ghost predicate Below<T(!new)>(compare: Comparison<T>, s: seq<T>, lo: nat, mid: nat, hi: nat) {
    lo <= mid <= hi <= |s| && forall i, j :: lo <= i < mid <= j < hi ==> compare(s[i], s[j]) <= 0
  }

  /** The same elements in the range, and nothing changed outside it. */
  ghost predicate Rearranged<T(!new)>(s: seq<T>, t: seq<T>, lo: nat, hi: nat) {
    lo <= hi <= |s| == |t| && s[..lo] == t[..lo] && s[hi..] == t[hi..] && multiset(s[lo..hi]) == multiset(t[lo..hi])
  }

  lemma Same<T(!new)>(s: seq<T>, lo: nat, hi: nat)
    requires lo <= hi <= |s|
    ensures Rearranged(s, s, lo, hi)
  {
  }

  lemma RearrangedTwice<T(!new)>(s: seq<T>, t: seq<T>, u: seq<T>, lo: nat, hi: nat)
    requires Rearranged(s, t, lo, hi) && Rearranged(t, u, lo, hi)
    ensures Rearranged(s, u, lo, hi)
  {
  }

  /** Rearranging a part rearranges the whole. */
  lemma RearrangedWider<T(!new)>(s: seq<T>, t: seq<T>, lo: nat, hi: nat, lo': nat, hi': nat)
    requires Rearranged(s, t, lo', hi') && lo <= lo' && hi' <= hi <= |s|
    ensures Rearranged(s, t, lo, hi)
  {
    assert s[..lo] == s[..lo'][..lo] && t[..lo] == t[..lo'][..lo];
    assert s[hi..] == s[hi'..][hi - hi'..] && t[hi..] == t[hi'..][hi - hi'..];
    assert s[lo..hi] == s[..lo'][lo..] + s[lo'..hi'] + s[hi'..][..hi - hi'];
    assert t[lo..hi] == t[..lo'][lo..] + t[lo'..hi'] + t[hi'..][..hi - hi'];
  }

  /** Every element was there before. */
  lemma RearrangedFrom<T(!new)>(s: seq<T>, t: seq<T>, lo: nat, hi: nat, i: nat) returns (j: nat)
    requires Rearranged(s, t, lo, hi) && lo <= i < hi
    ensures lo <= j < hi && s[j] == t[i]
  {
    assert t[i] == t[lo..hi][i - lo];
    assert t[i] in multiset(s[lo..hi]);
    var k :| 0 <= k < hi - lo && s[lo..hi][k] == t[i];
    j := lo + k;
  }

  lemma RearrangedOutside<T(!new)>(s: seq<T>, t: seq<T>, lo: nat, hi: nat, i: nat)
    requires Rearranged(s, t, lo, hi) && i < |s| && (i < lo || hi <= i)
    ensures s[i] == t[i]
  {
    if i < lo {
      assert s[..lo][i] == t[..lo][i];
    } else {
      assert s[hi..][i - hi] == t[hi..][i - hi];
    }
  }

  function Exchanged<T>(s: seq<T>, i: nat, j: nat): seq<T>
    requires i < |s| && j < |s|
  {
    s[i := s[j]][j := s[i]]
  }

  lemma Swapped<T(!new)>(s: seq<T>, lo: nat, hi: nat, i: nat, j: nat)
    requires lo <= i <= j < hi <= |s|
    ensures Rearranged(s, Exchanged(s, i, j), lo, hi)
  {
    var t := Exchanged(s, i, j);
    if i < j {
      assert s[lo..hi] == s[lo..i] + [s[i]] + s[i + 1..j] + [s[j]] + s[j + 1..hi];
      assert t[lo..hi] == s[lo..i] + [s[j]] + s[i + 1..j] + [s[i]] + s[j + 1..hi];
    } else {
      assert t == s;
    }
  }

  /** Swaps two elements of a range that so far is a rearrangement of `start`. */
  method Swap<T(!new)>(a: array<T>, i: nat, j: nat, ghost lo: nat, ghost hi: nat, ghost start: seq<T>)
    requires lo <= i < hi <= a.Length && lo <= j < hi && Rearranged(start, a[..], lo, hi)
    modifies a
    ensures a[..] == Exchanged(old(a[..]), i, j)
    ensures Rearranged(start, a[..], lo, hi)
  {
    hide Rearranged;
    ghost var before := a[..];
    if i <= j {
      Swapped(before, lo, hi, i, j);
    } else {
      Swapped(before, lo, hi, j, i);
      assert Exchanged(before, i, j) == Exchanged(before, j, i);
    }
    a[i], a[j] := a[j], a[i];
    assert a[..] == Exchanged(before, i, j);
    RearrangedTwice(start, before, a[..], lo, hi);
  }

  // ---- Insertion sort --------------------------------------------------------------------------

  /** Ordered but for the element at `at`, which may still have to go down. */
  ghost predicate Sinking<T(!new)>(compare: Comparison<T>, s: seq<T>, lo: nat, at: nat, hi: nat) {
    && lo <= at < hi <= |s|
    && (forall i, j :: lo <= i <= j < hi && i != at && j != at ==> compare(s[i], s[j]) <= 0)
    && (forall j :: at < j < hi ==> compare(s[at], s[j]) <= 0)
  }

  lemma Sank<T(!new)>(compare: Comparison<T>, s: seq<T>, lo: nat, at: nat, hi: nat)
    requires Preorder(compare) && Sinking(compare, s, lo, at, hi) && (at == lo || compare(s[at - 1], s[at]) <= 0)
    ensures Ordered(compare, s, lo, hi)
  {
    forall i, j | lo <= i <= j < hi
      ensures compare(s[i], s[j]) <= 0
    {
      if i == j {
      } else if j == at {
        assert compare(s[i], s[at - 1]) <= 0;
      }
    }
  }

  lemma SinkStep<T(!new)>(compare: Comparison<T>, s: seq<T>, lo: nat, at: nat, hi: nat)
    requires Preorder(compare) && Sinking(compare, s, lo, at, hi) && at > lo && compare(s[at - 1], s[at]) > 0
    ensures Sinking(compare, Exchanged(s, at - 1, at), lo, at - 1, hi)
  {
    var t := Exchanged(s, at - 1, at);
    forall j | at - 1 < j < hi
      ensures compare(t[at - 1], t[j]) <= 0
    {
    }
    forall i, j | lo <= i <= j < hi && i != at - 1 && j != at - 1
      ensures compare(t[i], t[j]) <= 0
    {
      if i == at && j == at {
        assert compare(s[at - 1], s[at - 1]) <= 0;
      } else if i == at {
        assert compare(s[at - 1], s[j]) <= 0;
      } else if j == at {
        assert compare(s[i], s[at - 1]) <= 0;
      }
    }
  }

  method Insert<T(!new)>(a: array<T>, compare: Comparison<T>, lo: nat, index: nat, ghost hi: nat)
    requires Preorder(compare) && lo <= index < hi <= a.Length && Ordered(compare, a[..], lo, index)
    modifies a
    ensures Ordered(compare, a[..], lo, index + 1) && Rearranged(old(a[..]), a[..], lo, hi)
  {
    hide Preorder, Ordered, Sinking, Rearranged;
    var cursor := index;
    Reflexive(compare, a[..], lo, index, hi);
    while cursor > lo
      invariant lo <= cursor <= index && Sinking(compare, a[..], lo, cursor, index + 1)
      invariant Rearranged(old(a[..]), a[..], lo, hi)
    {
      if compare(a[cursor - 1], a[cursor]) <= 0 {
        break;
      }
      ghost var before := a[..];
      SinkStep(compare, before, lo, cursor, index + 1);
      Swap(a, cursor - 1, cursor, lo, hi, old(a[..]));
      cursor := cursor - 1;
    }
    Sank(compare, a[..], lo, cursor, index + 1);
  }

  lemma Reflexive<T(!new)>(compare: Comparison<T>, s: seq<T>, lo: nat, at: nat, hi: nat)
    requires Preorder(compare) && lo <= at < hi <= |s| && Ordered(compare, s, lo, at)
    ensures Sinking(compare, s, lo, at, at + 1) && Rearranged(s, s, lo, hi)
  {
  }

  method InsertionSort<T(!new)>(a: array<T>, compare: Comparison<T>, lo: nat, count: nat)
    requires Preorder(compare) && lo + count <= a.Length
    modifies a
    ensures Ordered(compare, a[..], lo, lo + count) && Rearranged(old(a[..]), a[..], lo, lo + count)
  {
    hide Preorder, Ordered, Rearranged;
    FewAreOrdered(compare, a[..], lo, if count == 0 then 0 else 1);
    Same(a[..], lo, lo + count);
    var index := 1;
    while index < count
      invariant 1 <= index && (index <= count || index == 1)
      invariant Ordered(compare, a[..], lo, lo + if index <= count then index else count)
      invariant Rearranged(old(a[..]), a[..], lo, lo + count)
    {
      ghost var before := a[..];
      Insert(a, compare, lo, lo + index, lo + count);
      RearrangedTwice(old(a[..]), before, a[..], lo, lo + count);
      index := index + 1;
    }
  }

  // ---- Heap sort -------------------------------------------------------------------------------

  function Parent(i: nat): (p: nat)
    requires i > 0
    ensures p < i
  {
    (i - 1) / 2
  }

  /** The element at `i` of the range does not exceed the one at `j`. */
  ghost predicate Fits<T(!new)>(compare: Comparison<T>, s: seq<T>, lo: nat, i: nat, j: nat) {
    lo + i < |s| && lo + j < |s| && compare(s[lo + i], s[lo + j]) <= 0
  }

  /** From `start` on no child exceeds its parent, except perhaps below `hole`. */
  ghost predicate HeapBut<T(!new)>(compare: Comparison<T>, s: seq<T>, lo: nat, start: nat, hole: nat, count: nat) {
    forall i: nat :: 1 <= i < count && start <= Parent(i) && Parent(i) != hole ==> Fits(compare, s, lo, i, Parent(i))
  }

  ghost predicate Heap<T(!new)>(compare: Comparison<T>, s: seq<T>, lo: nat, start: nat, count: nat) {
    HeapBut(compare, s, lo, start, count, count)
  }

  /** Children of `hole` do not exceed the element at `j`. */
  ghost predicate ChildrenFit<T(!new)>(compare: Comparison<T>, s: seq<T>, lo: nat, hole: nat, count: nat, j: nat) {
    forall i: nat :: 1 <= i < count && Parent(i) == hole ==> Fits(compare, s, lo, i, j)
  }

  /** What hangs below the hole fits below the hole's own parent. */
  ghost predicate HoleFits<T(!new)>(compare: Comparison<T>, s: seq<T>, lo: nat, start: nat, hole: nat, count: nat) {
    hole > 0 && start <= Parent(hole) ==> ChildrenFit(compare, s, lo, hole, count, Parent(hole))
  }

  lemma HoleClosed<T(!new)>(compare: Comparison<T>, s: seq<T>, lo: nat, start: nat, hole: nat, count: nat)
    requires HeapBut(compare, s, lo, start, hole, count) && ChildrenFit(compare, s, lo, hole, count, hole)
    ensures Heap(compare, s, lo, start, count)
  {
  }

  /** The hole's child goes up, the hole's element takes its place. */
  ghost predicate MayGoUp<T(!new)>(compare: Comparison<T>, s: seq<T>, lo: nat, start: nat, hole: nat, child: nat, count: nat) {
    && Preorder(compare) && start <= hole && lo + count <= |s| && 1 <= child < count && Parent(child) == hole
    && HeapBut(compare, s, lo, start, hole, count) && HoleFits(compare, s, lo, start, hole, count)
    && ChildrenFit(compare, s, lo, hole, count, child) && compare(s[lo + hole], s[lo + child]) < 0
  }

  lemma SiftOne<T(!new)>(compare: Comparison<T>, s: seq<T>, lo: nat, start: nat, hole: nat, child: nat, count: nat, i: nat)
    requires MayGoUp(compare, s, lo, start, hole, child, count)
    requires 1 <= i < count && start <= Parent(i) && Parent(i) != child
    ensures Fits(compare, Exchanged(s, lo + hole, lo + child), lo, i, Parent(i))
  {
    if Parent(i) == hole {
      assert Fits(compare, s, lo, i, child);
    } else if i == hole {
      assert Fits(compare, s, lo, child, Parent(hole));
    } else {
      assert Fits(compare, s, lo, i, Parent(i));
    }
  }

  /** Swapping the hole with its largest child moves the hole down. */
  lemma SiftStep<T(!new)>(compare: Comparison<T>, s: seq<T>, lo: nat, start: nat, hole: nat, child: nat, count: nat)
    requires MayGoUp(compare, s, lo, start, hole, child, count)
    ensures HeapBut(compare, Exchanged(s, lo + hole, lo + child), lo, start, child, count)
    ensures HoleFits(compare, Exchanged(s, lo + hole, lo + child), lo, start, child, count)
  {
    hide Preorder;
    var t := Exchanged(s, lo + hole, lo + child);
    forall i: nat | 1 <= i < count && start <= Parent(i) && Parent(i) != child
      ensures Fits(compare, t, lo, i, Parent(i))
    {
      SiftOne(compare, s, lo, start, hole, child, count, i);
    }
    forall i: nat | 1 <= i < count && Parent(i) == child
      ensures Fits(compare, t, lo, i, hole)
    {
      assert Fits(compare, s, lo, i, child);
    }
  }

  method LargerChild<T(!new)>(a: array<T>, compare: Comparison<T>, lo: nat, root: nat, count: nat) returns (child: nat)
    requires Preorder(compare) && lo + count <= a.Length && root * 2 + 1 < count
    ensures 1 <= child < count && Parent(child) == root && ChildrenFit(compare, a[..], lo, root, count, child)
  {
    hide Preorder, ChildrenFit;
    child := root * 2 + 1;
    PickChild(compare, a[..], lo, root, count);
    if child + 1 < count && compare(a[lo + child], a[lo + child + 1]) < 0 {
      child := child + 1;
    }
  }

  lemma PickChild<T(!new)>(compare: Comparison<T>, s: seq<T>, lo: nat, root: nat, count: nat)
    requires Preorder(compare) && lo + count <= |s| && root * 2 + 1 < count
    ensures var child := root * 2 + 1;
            if child + 1 < count && compare(s[lo + child], s[lo + child + 1]) < 0
            then Parent(child + 1) == root && ChildrenFit(compare, s, lo, root, count, child + 1)
            else Parent(child) == root && ChildrenFit(compare, s, lo, root, count, child)
  {
    var first := root * 2 + 1;
    var best := if first + 1 < count && compare(s[lo + first], s[lo + first + 1]) < 0 then first + 1 else first;
    assert compare(s[lo + best], s[lo + best]) <= 0;
    forall i: nat | 1 <= i < count && Parent(i) == root
      ensures Fits(compare, s, lo, i, best)
    {
      assert i == first || i == first + 1;
      if i == first + 1 {
        assert lo + i == lo + first + 1;
      }
    }
  }

  method SiftDown<T(!new)>(a: array<T>, compare: Comparison<T>, lo: nat, start: nat, count: nat)
    requires Preorder(compare) && start < count && lo + count <= a.Length
    requires HeapBut(compare, a[..], lo, start, start, count)
    modifies a
    ensures Heap(compare, a[..], lo, start, count) && Rearranged(old(a[..]), a[..], lo, lo + count)
  {
    hide Preorder, HeapBut, HoleFits, ChildrenFit, Rearranged;
    var root := start;
    Same(a[..], lo, lo + count);
    TopHole(compare, a[..], lo, start, count);
    while root * 2 + 1 < count
      invariant start <= root < count
      invariant HeapBut(compare, a[..], lo, start, root, count) && HoleFits(compare, a[..], lo, start, root, count)
      invariant Rearranged(old(a[..]), a[..], lo, lo + count)
      decreases count - root
    {
      var child := LargerChild(a, compare, lo, root, count);
      if compare(a[lo + root], a[lo + child]) >= 0 {
        LargestFits(compare, a[..], lo, root, child, count);
        HoleClosed(compare, a[..], lo, start, root, count);
        return;
      }
      ghost var before := a[..];
      SiftStep(compare, before, lo, start, root, child, count);
      Swap(a, lo + root, lo + child, lo, lo + count, old(a[..]));
      root := child;
    }
    NoChildren(compare, a[..], lo, root, count);
    HoleClosed(compare, a[..], lo, start, root, count);
  }

  lemma TopHole<T(!new)>(compare: Comparison<T>, s: seq<T>, lo: nat, start: nat, count: nat)
    ensures HoleFits(compare, s, lo, start, start, count)
  {
  }

  lemma NoChildren<T(!new)>(compare: Comparison<T>, s: seq<T>, lo: nat, root: nat, count: nat)
    requires root * 2 + 1 >= count
    ensures ChildrenFit(compare, s, lo, root, count, root)
  {
  }

  lemma LargestFits<T(!new)>(compare: Comparison<T>, s: seq<T>, lo: nat, root: nat, child: nat, count: nat)
    requires Preorder(compare) && lo + count <= |s| && root < count && child < count && compare(s[lo + root], s[lo + child]) >= 0
    requires ChildrenFit(compare, s, lo, root, count, child)
    ensures ChildrenFit(compare, s, lo, root, count, root)
  {
    assert compare(s[lo + child], s[lo + root]) <= 0;
    forall i: nat | 1 <= i < count && Parent(i) == root
      ensures Fits(compare, s, lo, i, root)
    {
      assert Fits(compare, s, lo, i, child);
    }
  }

  lemma {:induction false} RootIsLargest<T(!new)>(compare: Comparison<T>, s: seq<T>, lo: nat, count: nat, i: nat)
    requires Preorder(compare) && Heap(compare, s, lo, 0, count) && i < count && lo + count <= |s|
    ensures Fits(compare, s, lo, i, 0)
    decreases i
  {
    if i == 0 {
      assert compare(s[lo], s[lo]) <= 0;
    } else {
      RootIsLargest(compare, s, lo, count, Parent(i));
      assert Fits(compare, s, lo, i, Parent(i));
    }
  }

  method BuildHeap<T(!new)>(a: array<T>, compare: Comparison<T>, lo: nat, count: nat)
    requires Preorder(compare) && lo + count <= a.Length
    modifies a
    ensures Heap(compare, a[..], lo, 0, count) && Rearranged(old(a[..]), a[..], lo, lo + count)
  {
    hide Preorder, HeapBut, Rearranged;
    var index := count / 2;
    Same(a[..], lo, lo + count);
    LeavesAreHeaps(compare, a[..], lo, count);
    while index > 0
      invariant 0 <= index <= count / 2
      invariant Heap(compare, a[..], lo, index, count) && Rearranged(old(a[..]), a[..], lo, lo + count)
    {
      index := index - 1;
      ghost var before := a[..];
      OpenHole(compare, before, lo, index, count);
      SiftDown(a, compare, lo, index, count);
      RearrangedTwice(old(a[..]), before, a[..], lo, lo + count);
    }
  }

  lemma LeavesAreHeaps<T(!new)>(compare: Comparison<T>, s: seq<T>, lo: nat, count: nat)
    ensures Heap(compare, s, lo, count / 2, count)
  {
  }

  lemma OpenHole<T(!new)>(compare: Comparison<T>, s: seq<T>, lo: nat, index: nat, count: nat)
    requires Heap(compare, s, lo, index + 1, count)
    ensures HeapBut(compare, s, lo, index, index, count)
  {
  }

  /** The largest is moved behind the heap. */
  lemma TakeRoot<T(!new)>(compare: Comparison<T>, s: seq<T>, lo: nat, index: nat, hi: nat)
    requires Preorder(compare) && 0 < index && lo + index < hi <= |s| && Heap(compare, s, lo, 0, index + 1)
    requires Ordered(compare, s, lo + index + 1, hi) && Below(compare, s, lo, lo + index + 1, hi)
    ensures HeapBut(compare, Exchanged(s, lo, lo + index), lo, 0, 0, index)
    ensures Ordered(compare, Exchanged(s, lo, lo + index), lo + index, hi)
    ensures Below(compare, Exchanged(s, lo, lo + index), lo, lo + index, hi)
  {
    hide HeapBut, Below;
    TakenBelow(compare, s, lo, index, hi);
    TakenHeap(compare, s, lo, index);
    var t := Exchanged(s, lo, lo + index);
    forall j | lo + index < j < hi
      ensures compare(t[lo + index], t[j]) <= 0
    {
      BelowAt(compare, s, lo, lo + index + 1, hi, lo, j);
    }
    assert compare(t[lo + index], t[lo + index]) <= 0;
  }

  lemma BelowAt<T(!new)>(compare: Comparison<T>, s: seq<T>, lo: nat, mid: nat, hi: nat, i: nat, j: nat)
    requires Below(compare, s, lo, mid, hi) && lo <= i < mid <= j < hi
    ensures compare(s[i], s[j]) <= 0
  {
  }

  lemma TakenHeap<T(!new)>(compare: Comparison<T>, s: seq<T>, lo: nat, index: nat)
    requires 0 < index && lo + index < |s| && Heap(compare, s, lo, 0, index + 1)
    ensures HeapBut(compare, Exchanged(s, lo, lo + index), lo, 0, 0, index)
  {
    forall i: nat | 1 <= i < index && Parent(i) != 0
      ensures Fits(compare, Exchanged(s, lo, lo + index), lo, i, Parent(i))
    {
      assert Fits(compare, s, lo, i, Parent(i));
    }
  }

  lemma TakenBelow<T(!new)>(compare: Comparison<T>, s: seq<T>, lo: nat, index: nat, hi: nat)
    requires Preorder(compare) && 0 < index && lo + index < hi <= |s| && Heap(compare, s, lo, 0, index + 1)
    requires Below(compare, s, lo, lo + index + 1, hi)
    ensures Below(compare, Exchanged(s, lo, lo + index), lo, lo + index, hi)
  {
    hide HeapBut;
    var t := Exchanged(s, lo, lo + index);
    forall i, j | lo <= i < lo + index <= j < hi
      ensures compare(t[i], t[j]) <= 0
    {
      var k := if i == lo then index else i - lo;
      assert t[i] == s[lo + k];
      RootIsLargest(compare, s, lo, index + 1, k);
    }
  }

  /** Rearranging below keeps what is below. */
  lemma StillBelow<T(!new)>(compare: Comparison<T>, s: seq<T>, t: seq<T>, lo: nat, mid: nat, hi: nat)
    requires Below(compare, s, lo, mid, hi) && Ordered(compare, s, mid, hi) && Rearranged(s, t, lo, mid)
    ensures Below(compare, t, lo, mid, hi) && Ordered(compare, t, mid, hi)
  {
    forall i | mid <= i < hi
      ensures t[i] == s[i]
    {
      RearrangedOutside(s, t, lo, mid, i);
    }
    forall i, j | lo <= i < mid <= j < hi
      ensures compare(t[i], t[j]) <= 0
    {
      var k := RearrangedFrom(s, t, lo, mid, i);
    }
  }

  method HeapSort<T(!new)>(a: array<T>, compare: Comparison<T>, lo: nat, count: nat)
    requires Preorder(compare) && lo + count <= a.Length
    modifies a
    ensures Ordered(compare, a[..], lo, lo + count) && Rearranged(old(a[..]), a[..], lo, lo + count)
  {
    hide Preorder, HeapBut, Rearranged, Ordered, Below, Exchanged;
    if count < 2 {
      FewAreOrdered(compare, a[..], lo, count);
      return;
    }
    BuildHeap(a, compare, lo, count);
    var index := count;
    NothingAbove(compare, a[..], lo, lo + count);
    while index > 1
      invariant 1 <= index <= count && Heap(compare, a[..], lo, 0, index)
      invariant Ordered(compare, a[..], lo + index, lo + count) && Below(compare, a[..], lo, lo + index, lo + count)
      invariant Rearranged(old(a[..]), a[..], lo, lo + count)
    {
      index := index - 1;
      ghost var before := a[..];
      TakeRoot(compare, before, lo, index, lo + count);
      Swap(a, lo, lo + index, lo, lo + count, old(a[..]));
      ghost var middle := a[..];
      SiftDown(a, compare, lo, 0, index);
      StillBelow(compare, middle, a[..], lo, lo + index, lo + count);
      RearrangedWider(middle, a[..], lo, lo + count, lo, lo + index);
      RearrangedTwice(old(a[..]), middle, a[..], lo, lo + count);
    }
    AllOrdered(compare, a[..], lo, lo + count);
  }

  lemma FewAreOrdered<T(!new)>(compare: Comparison<T>, s: seq<T>, lo: nat, count: nat)
    requires Preorder(compare) && count < 2 && lo + count <= |s|
    ensures Ordered(compare, s, lo, lo + count) && Rearranged(s, s, lo, lo + count)
  {
    assert forall i :: lo <= i < lo + count ==> compare(s[i], s[i]) <= 0;
  }

  lemma NothingAbove<T(!new)>(compare: Comparison<T>, s: seq<T>, lo: nat, hi: nat)
    requires lo <= hi <= |s|
    ensures Ordered(compare, s, hi, hi) && Below(compare, s, lo, hi, hi)
  {
  }

  lemma AllOrdered<T(!new)>(compare: Comparison<T>, s: seq<T>, lo: nat, hi: nat)
    requires Preorder(compare) && lo < hi <= |s| && Ordered(compare, s, lo + 1, hi) && Below(compare, s, lo, lo + 1, hi)
    ensures Ordered(compare, s, lo, hi)
  {
    assert compare(s[lo], s[lo]) <= 0;
  }

  // ---- Partition -------------------------------------------------------------------------------

  function Paired<T>(compare: Comparison<T>, s: seq<T>, i: nat, j: nat): seq<T>
    requires i < |s| && j < |s|
  {
    if compare(s[i], s[j]) > 0 then Exchanged(s, i, j) else s
  }

  lemma PairedMeans<T(!new)>(compare: Comparison<T>, s: seq<T>, i: nat, j: nat)
    requires Preorder(compare) && i <= j < |s|
    ensures var t := Paired(compare, s, i, j);
            && |t| == |s| && compare(t[i], t[j]) <= 0 && compare(t[i], t[i]) <= 0 && compare(t[j], t[j]) <= 0
            && (forall x :: compare(s[i], x) <= 0 ==> compare(t[i], x) <= 0)
            && forall x :: compare(x, s[i]) <= 0 && compare(x, s[j]) <= 0 ==> compare(x, t[i]) <= 0 && compare(x, t[j]) <= 0
  {
    assert compare(s[i], s[i]) <= 0 && compare(s[j], s[j]) <= 0;
  }

  /** Three comparisons leave the median in the middle. */
  lemma MedianOfThree<T(!new)>(compare: Comparison<T>, s: seq<T>, i: nat, j: nat, k: nat)
    requires Preorder(compare) && i <= j <= k < |s| && (i == j ==> j == k)
    ensures var t := Exchanged(Paired(compare, Paired(compare, Paired(compare, s, i, j), i, k), j, k), j, k);
            compare(t[i], t[k]) <= 0 && compare(t[k], t[j]) <= 0
  {
    hide Preorder;
    PairedMeans(compare, s, i, j);
    var t := Paired(compare, s, i, j);
    PairedMeans(compare, t, i, k);
    var u := Paired(compare, t, i, k);
    assert compare(u[i], u[j]) <= 0;
    PairedMeans(compare, u, j, k);
    var v := Paired(compare, u, j, k);
    assert compare(v[i], v[j]) <= 0;
  }

  method OrderPair<T(!new)>(a: array<T>, compare: Comparison<T>, i: nat, j: nat, ghost lo: nat, ghost hi: nat, ghost start: seq<T>)
    requires lo <= i < hi <= a.Length && lo <= j < hi && Rearranged(start, a[..], lo, hi)
    modifies a
    ensures Rearranged(start, a[..], lo, hi)
    ensures a[..] == Paired(compare, old(a[..]), i, j)
  {
    hide Rearranged;
    if compare(a[i], a[j]) > 0 {
      Swap(a, i, j, lo, hi, start);
    }
  }

  /** Brings the median of three to the end of the range. */
  method MedianLast<T(!new)>(a: array<T>, compare: Comparison<T>, lo: nat, count: nat)
    requires Preorder(compare) && count > 0 && lo + count <= a.Length
    modifies a
    ensures Rearranged(old(a[..]), a[..], lo, lo + count)
    ensures compare(a[lo], a[lo + count - 1]) <= 0 && compare(a[lo + count - 1], a[lo + count / 2]) <= 0
  {
    hide Rearranged, Exchanged, Preorder, Paired;
    var middle, last := count / 2, count - 1;
    ghost var start := a[..];
    Same(start, lo, lo + count);
    MedianOfThree(compare, start, lo, lo + middle, lo + last);
    OrderPair(a, compare, lo, lo + middle, lo, lo + count, start);
    OrderPair(a, compare, lo, lo + last, lo, lo + count, start);
    OrderPair(a, compare, lo + middle, lo + last, lo, lo + count, start);
    Swap(a, lo + middle, lo + last, lo, lo + count, start);
  }

  /** Everything before the pivot is smaller, nothing after it is. */
  ghost predicate Split<T(!new)>(compare: Comparison<T>, s: seq<T>, lo: nat, at: nat, hi: nat) {
    && lo <= at < hi <= |s|
    && (forall i :: lo <= i < at ==> compare(s[i], s[at]) < 0)
    && (forall i :: at <= i < hi ==> compare(s[i], s[at]) >= 0)
  }

  /** What a scan up to `index` has established about the pivot in the last place. */
  ghost predicate Splitting<T(!new)>(compare: Comparison<T>, s: seq<T>, lo: nat, boundary: nat, index: nat, last: nat) {
    && lo <= boundary <= index <= last < |s|
    && (forall i :: lo <= i < boundary ==> compare(s[i], s[last]) < 0)
    && (forall i :: boundary <= i < index ==> compare(s[i], s[last]) >= 0)
  }

  lemma SplitStart<T(!new)>(compare: Comparison<T>, s: seq<T>, lo: nat, last: nat)
    requires lo <= last < |s|
    ensures Splitting(compare, s, lo, lo, lo, last)
  {
  }

  lemma SplitNext<T(!new)>(compare: Comparison<T>, s: seq<T>, lo: nat, boundary: nat, index: nat, last: nat)
    requires Splitting(compare, s, lo, boundary, index, last) && index < last
    ensures if compare(s[index], s[last]) < 0 then Splitting(compare, Exchanged(s, boundary, index), lo, boundary + 1, index + 1, last)
            else Splitting(compare, s, lo, boundary, index + 1, last)
  {
  }

  lemma SplitDone<T(!new)>(compare: Comparison<T>, s: seq<T>, lo: nat, boundary: nat, last: nat)
    requires Preorder(compare) && Splitting(compare, s, lo, boundary, last, last)
    ensures Split(compare, Exchanged(s, boundary, last), lo, boundary, last + 1)
  {
    assert compare(s[last], s[last]) >= 0;
  }

  method Partition<T(!new)>(a: array<T>, compare: Comparison<T>, lo: nat, count: nat) returns (split: nat)
    requires Preorder(compare) && count > 0 && lo + count <= a.Length
    modifies a
    ensures split < count && Split(compare, a[..], lo, lo + split, lo + count)
    ensures Rearranged(old(a[..]), a[..], lo, lo + count)
  {
    hide Rearranged, Split, Preorder, Splitting, Exchanged;
    MedianLast(a, compare, lo, count);
    var last, index := lo + count - 1, lo;
    split := 0;
    SplitStart(compare, a[..], lo, last);
    while index < last
      invariant lo <= lo + split <= index <= last && Splitting(compare, a[..], lo, lo + split, index, last)
      invariant Rearranged(old(a[..]), a[..], lo, lo + count)
    {
      SplitNext(compare, a[..], lo, lo + split, index, last);
      if compare(a[index], a[last]) < 0 {
        Swap(a, lo + split, index, lo, lo + count, old(a[..]));
        split := split + 1;
      }
      index := index + 1;
    }
    SplitDone(compare, a[..], lo, lo + split, last);
    Swap(a, lo + split, last, lo, lo + count, old(a[..]));
  }

  // ---- Introsort -------------------------------------------------------------------------------

  function Power(n: nat): (p: nat)
    ensures p > 0
  {
    if n == 0 then 1 else 2 * Power(n - 1)
  }

  /** Only the range from `base` to `end` is left to sort. */
  ghost predicate Settled<T(!new)>(compare: Comparison<T>, s: seq<T>, lo: nat, base: nat, end: nat, hi: nat) {
    && lo <= base <= end <= hi <= |s|
    && Ordered(compare, s, lo, base) && Ordered(compare, s, end, hi)
    && Below(compare, s, lo, base, hi) && Below(compare, s, lo, end, hi)
  }

  lemma SettledKept<T(!new)>(compare: Comparison<T>, s: seq<T>, t: seq<T>, lo: nat, base: nat, end: nat, hi: nat)
    requires Settled(compare, s, lo, base, end, hi) && Rearranged(s, t, base, end)
    ensures Settled(compare, t, lo, base, end, hi)
  {
    forall i | 0 <= i < |s| && (i < base || end <= i)
      ensures t[i] == s[i]
    {
      RearrangedOutside(s, t, base, end, i);
    }
    forall i | base <= i < end
      ensures (forall j :: end <= j < hi ==> compare(t[i], t[j]) <= 0) && (forall j :: lo <= j < base ==> compare(t[j], t[i]) <= 0)
    {
      var k := RearrangedFrom(s, t, base, end, i);
    }
  }

  lemma SettledDone<T(!new)>(compare: Comparison<T>, s: seq<T>, lo: nat, base: nat, end: nat, hi: nat)
    requires Settled(compare, s, lo, base, end, hi) && Ordered(compare, s, base, end)
    ensures Ordered(compare, s, lo, hi)
  {
  }

  lemma SplitKept<T(!new)>(compare: Comparison<T>, s: seq<T>, t: seq<T>, lo: nat, at: nat, hi: nat, from: nat, to: nat)
    requires Split(compare, s, lo, at, hi) && Rearranged(s, t, from, to) && lo <= from <= to <= hi && (to == at || from == at + 1)
    ensures Split(compare, t, lo, at, hi)
  {
    RearrangedOutside(s, t, from, to, at);
    forall i | lo <= i < hi
      ensures if i < at then compare(t[i], t[at]) < 0 else compare(t[i], t[at]) >= 0
    {
      if from <= i < to {
        var k := RearrangedFrom(s, t, from, to, i);
      } else {
        RearrangedOutside(s, t, from, to, i);
      }
    }
  }

  /** The left side is done, and the pivot with it. */
  lemma LeftDone<T(!new)>(compare: Comparison<T>, s: seq<T>, lo: nat, base: nat, at: nat, end: nat, hi: nat)
    requires Preorder(compare) && Settled(compare, s, lo, base, end, hi) && Split(compare, s, base, at, end) && Ordered(compare, s, base, at)
    ensures Settled(compare, s, lo, at + 1, end, hi)
  {
    forall i, j | lo <= i <= j < at + 1
      ensures compare(s[i], s[j]) <= 0
    {
    }
    forall i, j | lo <= i < at + 1 <= j < hi
      ensures compare(s[i], s[j]) <= 0
    {
      if base <= i && j < end {
        assert compare(s[i], s[at]) <= 0 && compare(s[at], s[j]) <= 0;
      }
    }
  }

  lemma RightDone<T(!new)>(compare: Comparison<T>, s: seq<T>, lo: nat, base: nat, at: nat, end: nat, hi: nat)
    requires Preorder(compare) && Settled(compare, s, lo, base, end, hi) && Split(compare, s, base, at, end) && Ordered(compare, s, at + 1, end)
    ensures Settled(compare, s, lo, base, at, hi)
  {
    forall i, j | at <= i <= j < hi
      ensures compare(s[i], s[j]) <= 0
    {
      if i < end && j < end {
        assert compare(s[at], s[i]) <= 0;
        assert compare(s[at], s[j]) <= 0;
      }
    }
    forall i, j | lo <= i < at <= j < hi
      ensures compare(s[i], s[j]) <= 0
    {
      if base <= i && j < end {
        assert compare(s[i], s[at]) <= 0 && compare(s[at], s[j]) <= 0;
      }
    }
  }

  lemma Start<T(!new)>(compare: Comparison<T>, s: seq<T>, lo: nat, hi: nat)
    requires lo <= hi <= |s|
    ensures Settled(compare, s, lo, lo, hi, hi) && Rearranged(s, s, lo, hi)
  {
  }

  /** The smaller side is less than half, so calls on it need one level less. */
  lemma SmallerSide(side: nat, count: nat, room: nat)
    requires 2 * side < count < Power(room + 1) && count > SMALL
    ensures room > 0 && side < Power(room)
  {
    assert Power(1) == 2 * Power(0) && Power(0) == 1;
  }

  /** The left side was sorted. */
  lemma WentLeft<T(!new)>(compare: Comparison<T>, start: seq<T>, s: seq<T>, t: seq<T>, lo: nat, base: nat, at: nat, end: nat, hi: nat)
    requires Preorder(compare) && Rearranged(start, s, lo, hi) && Settled(compare, s, lo, base, end, hi) && Split(compare, s, base, at, end)
    requires Rearranged(s, t, base, at) && Ordered(compare, t, base, at)
    ensures Rearranged(start, t, lo, hi) && Settled(compare, t, lo, at + 1, end, hi)
  {
    hide Preorder, Settled, Split, Rearranged, Ordered;
    SplitRange(compare, s, base, at, end);
    SidesKept(compare, s, t, lo, base, at, end, hi, base, at);
    LeftDone(compare, t, lo, base, at, end, hi);
    RearrangedTwice(start, s, t, lo, hi);
  }

  /** The right side was sorted. */
  lemma WentRight<T(!new)>(compare: Comparison<T>, start: seq<T>, s: seq<T>, t: seq<T>, lo: nat, base: nat, at: nat, end: nat, hi: nat)
    requires Preorder(compare) && Rearranged(start, s, lo, hi) && Settled(compare, s, lo, base, end, hi) && Split(compare, s, base, at, end)
    requires Rearranged(s, t, at + 1, end) && Ordered(compare, t, at + 1, end)
    ensures Rearranged(start, t, lo, hi) && Settled(compare, t, lo, base, at, hi)
  {
    hide Preorder, Settled, Split, Rearranged, Ordered;
    SplitRange(compare, s, base, at, end);
    SidesKept(compare, s, t, lo, base, at, end, hi, at + 1, end);
    RightDone(compare, t, lo, base, at, end, hi);
    RearrangedTwice(start, s, t, lo, hi);
  }

  /** What was left was rearranged. */
  lemma Within<T(!new)>(compare: Comparison<T>, start: seq<T>, s: seq<T>, t: seq<T>, lo: nat, base: nat, end: nat, hi: nat)
    requires Rearranged(start, s, lo, hi) && Settled(compare, s, lo, base, end, hi) && Rearranged(s, t, base, end)
    ensures Rearranged(start, t, lo, hi) && Settled(compare, t, lo, base, end, hi)
    ensures Ordered(compare, t, base, end) ==> Ordered(compare, t, lo, hi)
  {
    hide Settled, Rearranged, Ordered;
    SettledRange(compare, s, lo, base, end, hi);
    RearrangedWider(s, t, lo, hi, base, end);
    RearrangedTwice(start, s, t, lo, hi);
    SettledKept(compare, s, t, lo, base, end, hi);
    if Ordered(compare, t, base, end) {
      SettledDone(compare, t, lo, base, end, hi);
    }
  }

  /** Partitioning once and going on with both sides stays within one level per element. */
  lemma LevelSpent(count: nat, split: nat, left: nat, side: nat)
    requires split < count && left > 0 && (side == split || side == count - split - 1)
    ensures count + side * (left - 1) + (count - 1 - side) * (left - 1) <= count * left
  {
    assert side * (left - 1) + (count - 1 - side) * (left - 1) == (count - 1) * (left - 1);
  }

  /**
   * Sorts a range in place. Calls nest no deeper than `room`, which the termination measure
   * shows: `room` need be no more than the logarithm of the length, rounded down. `scanned` adds
   * up the lengths of all ranges partitioned, in nested calls too.
   */
  method Introsort<T(!new)>(a: array<T>, compare: Comparison<T>, lo: nat, length: nat, limit: nat, ghost room: nat)
    returns (ghost scanned: nat)
    requires Preorder(compare) && lo + length <= a.Length && length < Power(room + 1)
    modifies a
    ensures Ordered(compare, a[..], lo, lo + length) && Rearranged(old(a[..]), a[..], lo, lo + length)
    ensures scanned <= length * limit
    decreases room
  {
    hide Preorder, Rearranged, Ordered, Settled, Split, Power;
    ghost var start, hi := a[..], lo + length;
    var base: nat, count: nat, left: nat := lo, length, limit;
    Start(compare, start, lo, hi);
    scanned := 0;
    while count > SMALL
      invariant lo <= base && base + count <= hi && Settled(compare, a[..], lo, base, base + count, hi)
      invariant Rearranged(start, a[..], lo, hi)
      invariant scanned + count * left <= length * limit
      decreases count
    {
      ghost var before, end := a[..], base + count;
      if left == 0 {
        HeapSort(a, compare, base, count);
        Within(compare, start, before, a[..], lo, base, end, hi);
        return;
      }
      ghost var inner;
      var split := Partition(a, compare, base, count);
      LevelSpent(count, split, left, if split < count - split - 1 then split else count - split - 1);
      scanned, left := scanned + count, left - 1;
      ghost var middle := a[..];
      Within(compare, start, before, middle, lo, base, end, hi);
      SmallerSide(if split < count - split - 1 then split else count - split - 1, count, room);
      if split < count - split - 1 {
        inner := Introsort(a, compare, base, split, left, room - 1);
        WentLeft(compare, start, middle, a[..], lo, base, base + split, end, hi);
        base, count := base + split + 1, count - split - 1;
      } else {
        inner := Introsort(a, compare, base + split + 1, count - split - 1, left, room - 1);
        WentRight(compare, start, middle, a[..], lo, base, base + split, end, hi);
        count := split;
      }
      scanned := scanned + inner;
    }
    ghost var before := a[..];
    InsertionSort(a, compare, base, count);
    Within(compare, start, before, a[..], lo, base, base + count, hi);
  }

  lemma SidesKept<T(!new)>(compare: Comparison<T>, s: seq<T>, t: seq<T>, lo: nat, base: nat, at: nat, end: nat, hi: nat, from: nat, to: nat)
    requires Settled(compare, s, lo, base, end, hi) && Split(compare, s, base, at, end)
    requires Rearranged(s, t, from, to) && base <= from <= to <= end && (to == at || from == at + 1)
    ensures Settled(compare, t, lo, base, end, hi) && Split(compare, t, base, at, end) && Rearranged(s, t, lo, hi)
  {
    hide Settled, Split, Rearranged;
    SettledRange(compare, s, lo, base, end, hi);
    RearrangedWider(s, t, base, end, from, to);
    RearrangedWider(s, t, lo, hi, base, end);
    SettledKept(compare, s, t, lo, base, end, hi);
    SplitKept(compare, s, t, base, at, end, from, to);
  }

  lemma SplitRange<T(!new)>(compare: Comparison<T>, s: seq<T>, base: nat, at: nat, end: nat)
    requires Split(compare, s, base, at, end)
    ensures base <= at < end <= |s|
  {
  }

  lemma SettledRange<T(!new)>(compare: Comparison<T>, s: seq<T>, lo: nat, base: nat, end: nat, hi: nat)
    requires Settled(compare, s, lo, base, end, hi)
    ensures lo <= base <= end <= hi <= |s|
  {
  }

  /** Twice the logarithm: how deep quicksort may go before heap sort takes over. */
  method DepthLimit(count: nat) returns (limit: nat)
    ensures limit % 2 == 0 && (count > 0 ==> Power(limit / 2) <= count < Power(limit / 2 + 1)) && (count == 0 ==> limit == 0)
  {
    var halvings, value := 0, count;
    while value > 1
      invariant count > 0 ==> value > 0 && value * Power(halvings) <= count < (value + 1) * Power(halvings)
      invariant count == 0 ==> value == 0 && halvings == 0
    {
      HalfSteps(value, Power(halvings), count);
      value := value / 2;
      halvings := halvings + 1;
    }
    return halvings * 2;
  }

  lemma HalfSteps(value: nat, p: nat, count: nat)
    requires value * p <= count < (value + 1) * p
    ensures value / 2 * (2 * p) <= count < (value / 2 + 1) * (2 * p)
  {
    var h := value / 2;
    assert h * (2 * p) == (h * 2) * p;
    assert (h + 1) * (2 * p) == (h * 2 + 2) * p;
    if value == h * 2 {
      assert (value + 1) * p <= (h * 2 + 2) * p;
    } else {
      assert value == h * 2 + 1;
      assert (h * 2) * p <= value * p;
    }
  }

  lemma {:induction false} PowersGrow(i: nat, j: nat)
    requires i <= j
    ensures Power(i) <= Power(j)
  {
    if i < j {
      PowersGrow(i, j - 1);
    }
  }

  /** Two powers of two around the same number are the same. */
  lemma SameLogarithm(n: nat, i: nat, j: nat)
    requires Power(i) <= n < Power(i + 1) && Power(j) <= n < Power(j + 1)
    ensures i == j
  {
    if i < j {
      PowersGrow(i + 1, j);
    } else if j < i {
      PowersGrow(j + 1, i);
    }
  }

  /**
   * Sorts the whole array; `room`, the logarithm of its length, bounds how deep calls nest, and
   * what partitioning scans is at most twice the length times that logarithm.
   */
  method QuickSort<T(!new)>(a: array<T>, compare: Comparison<T>, ghost room: nat) returns (ghost scanned: nat)
    requires Preorder(compare) && (a.Length > 0 ==> Power(room) <= a.Length < Power(room + 1))
    modifies a
    ensures Ordered(compare, a[..], 0, a.Length) && multiset(a[..]) == multiset(old(a[..]))
    ensures scanned <= a.Length * (2 * room)
  {
    scanned := 0;
    if a.Length < 2 {
      FewAreOrdered(compare, a[..], 0, a.Length);
      return;
    }
    var limit := DepthLimit(a.Length);
    SameLogarithm(a.Length, room, limit / 2);
    scanned := Introsort(a, compare, 0, a.Length, limit, room);
    assert a[0..a.Length] == a[..] && old(a[..])[0..a.Length] == old(a[..]);
  }
}
