/**
 * The kernel heap: blocks carved off a growing region, their headers in memory, and free blocks
 * linked through those same headers into one list per size class.
 */
module Heaps {
  import opened ObjectIds

  const ALIGNMENT: nat := 16
  const PAGE: nat := 4096
  const HEADER: nat := 16
  const MAGIC: nat := 0x4A41_4E49_4845_4150
  const CLASSES: nat := 9
  const SMALLEST: nat := 32

  /** Addresses a page can be mapped at: the mark is not among them. */
  predicate Canonical(from: nat, to: nat) {
    to <= 0x8000_0000_0000 || from >= 0xFFFF_8000_0000_0000
  }

  // ---- Sizes -----------------------------------------------------------------------------------

  function Aligned(n: nat): (r: nat)
    ensures r % ALIGNMENT == 0 && n <= r < n + ALIGNMENT
  {
    (n + ALIGNMENT - 1) / ALIGNMENT * ALIGNMENT
  }

  function BlockSize(n: nat): (size: Option<nat>)
    ensures size.Some? ==> size.value % ALIGNMENT == 0 && size.value >= n + HEADER && (n > 0 ==> size.value >= 2 * HEADER)
    ensures size.Some? ==> size.value % 16 == 0 && n + 16 <= size.value < n + 32
    ensures size.None? <==> n + 16 + 15 > 0xFFFF_FFFF_FFFF_FFFF
  {
    if n > UINT64_MAX - HEADER || n + HEADER > UINT64_MAX - (ALIGNMENT - 1) then None else Some(Aligned(n + HEADER))
  }

  /** The largest size of a class; the last class has no limit. */
  function Limit(c: nat): nat {
    if c == 0 then SMALLEST else 2 * Limit(c - 1)
  }

  /** In this class a block is too big for every smaller one. */
  ghost predicate InClass(size: nat, c: nat) {
    c < CLASSES && (c > 0 ==> size > Limit(c - 1)) && (c < CLASSES - 1 ==> size <= Limit(c))
  }

  lemma {:induction false} LimitGrows(c: nat, d: nat)
    requires c <= d
    ensures Limit(c) <= Limit(d)
    decreases d
  {
    if c < d {
      LimitGrows(c, d - 1);
    }
  }

  lemma ClassIsUnique(size: nat, c: nat, d: nat)
    requires InClass(size, c) && InClass(size, d)
    ensures c == d
  {
    if c < d {
      LimitGrows(c, d - 1);
    } else if d < c {
      LimitGrows(d, c - 1);
    }
  }

  /** Nothing in a smaller class is big enough. */
  lemma SmallerClass(size: nat, c: nat, need: nat, d: nat)
    requires InClass(size, c) && InClass(need, d) && c < d
    ensures size < need
  {
    LimitGrows(c, d - 1);
  }

  method ClassFor(size: nat) returns (c: nat)
    ensures InClass(size, c)
  {
    c := 0;
    var limit := SMALLEST;
    while c < CLASSES - 1 && size > limit
      invariant c < CLASSES && limit == Limit(c) && (c > 0 ==> size > Limit(c - 1))
    {
      limit := limit * 2;
      c := c + 1;
    }
  }

  // ---- Linked lists in memory ---------------------------------------------------------------------

  /** Following the links from `head` passes exactly these blocks. */
  ghost predicate Chain(words: map<nat, nat>, head: nat, list: seq<nat>)
    decreases |list|
  {
    if list == [] then head == 0
    else head == list[0] && head != 0 && head in words && Chain(words, words[head], list[1..])
  }

  ghost predicate NoRepeats(list: seq<nat>) {
    forall i, j :: 0 <= i < j < |list| ==> list[i] != list[j]
  }

  lemma {:induction false} ChainFrame(words: map<nat, nat>, after: map<nat, nat>, head: nat, list: seq<nat>)
    requires Chain(words, head, list) && forall x :: x in list && x in words ==> x in after && after[x] == words[x]
    ensures Chain(after, head, list)
    decreases |list|
  {
    if list != [] {
      assert list[0] in list;
      ChainFrame(words, after, words[head], list[1..]);
    }
  }

  /** What follows the block at position `i`. */
  lemma {:induction false} ChainAt(words: map<nat, nat>, head: nat, list: seq<nat>, i: nat)
    requires Chain(words, head, list) && i < |list|
    ensures list[i] in words && list[i] != 0 && words[list[i]] == if i + 1 < |list| then list[i + 1] else 0
    decreases |list|
  {
    if i > 0 {
      ChainAt(words, words[head], list[1..], i - 1);
    } else {
      assert |list| > 1 ==> list[1..][0] == list[1];
    }
  }

  function Without(list: seq<nat>, i: nat): seq<nat>
    requires i < |list|
  {
    list[..i] + list[i + 1..]
  }

  /** Unlinking a block that is not the first. */
  lemma {:induction false} ChainUnlink(words: map<nat, nat>, head: nat, list: seq<nat>, i: nat)
    requires Chain(words, head, list) && NoRepeats(list) && 0 < i < |list|
    requires list[i] in words && list[i - 1] in words
    ensures Chain(words[list[i - 1] := words[list[i]]], head, Without(list, i))
    decreases |list|
  {
    var after := words[list[i - 1] := words[list[i]]];
    assert list[0] in words;
    if i == 1 {
      ChainTail(words, head, list, 2);
      assert Without(list, 1)[1..] == list[2..];
      ChainFrame(words, after, words[list[1]], list[2..]);
    } else {
      ChainUnlink(words, words[head], list[1..], i - 1);
      assert Without(list, i)[1..] == Without(list[1..], i - 1);
    }
  }

  lemma {:induction false} ChainTail(words: map<nat, nat>, head: nat, list: seq<nat>, i: nat)
    requires Chain(words, head, list) && 0 < i <= |list|
    ensures list[i - 1] in words && Chain(words, words[list[i - 1]], list[i..])
    decreases |list|
  {
    if i > 1 {
      ChainTail(words, words[head], list[1..], i - 1);
      assert list[1..][i - 1..] == list[i..];
    }
  }

  // ---- Blocks ----------------------------------------------------------------------------------

  /** A block of a proper size ends where the next one starts. */
  ghost predicate TileOk(order: seq<nat>, sizes: map<nat, nat>, next: nat, i: nat)
    requires i < |order|
  {
    && order[i] in sizes && sizes[order[i]] % ALIGNMENT == 0 && sizes[order[i]] >= 2 * HEADER && order[i] % ALIGNMENT == 0
    && order[i] + sizes[order[i]] == if i + 1 < |order| then order[i + 1] else next
  }

  /** The blocks follow each other from `base` to `next` without gap or overlap. */
  ghost predicate Tiles(order: seq<nat>, sizes: map<nat, nat>, base: nat, next: nat) {
    && (forall i :: 0 <= i < |order| ==> TileOk(order, sizes, next, i))
    && (order == [] ==> base == next) && (order != [] ==> order[0] == base)
    && forall x :: x in sizes <==> x in order
  }

  lemma {:induction false} TilesApart(order: seq<nat>, sizes: map<nat, nat>, base: nat, next: nat, i: nat, j: nat)
    requires Tiles(order, sizes, base, next) && i < j < |order|
    ensures order[i] in sizes && order[i] + sizes[order[i]] <= order[j]
    decreases j
  {
    assert TileOk(order, sizes, next, i) && TileOk(order, sizes, next, j - 1);
    if i + 1 < j {
      TilesApart(order, sizes, base, next, i, j - 1);
    }
  }

  lemma TilesInside(order: seq<nat>, sizes: map<nat, nat>, base: nat, next: nat, x: nat)
    requires Tiles(order, sizes, base, next) && x in sizes
    ensures base <= x && x + sizes[x] <= next && x % ALIGNMENT == 0 && sizes[x] >= 2 * HEADER
  {
    var i :| 0 <= i < |order| && order[i] == x;
    var last := |order| - 1;
    assert TileOk(order, sizes, next, i) && TileOk(order, sizes, next, last);
    if i > 0 {
      TilesApart(order, sizes, base, next, 0, i);
    }
    if i < last {
      TilesApart(order, sizes, base, next, i, last);
    }
  }

  /** Two blocks share no byte. */
  lemma BlocksApart(order: seq<nat>, sizes: map<nat, nat>, base: nat, next: nat, x: nat, y: nat)
    requires Tiles(order, sizes, base, next) && x in sizes && y in sizes && x != y
    ensures x + sizes[x] <= y || y + sizes[y] <= x
  {
    var i :| 0 <= i < |order| && order[i] == x;
    var j :| 0 <= j < |order| && order[j] == y;
    if i < j {
      TilesApart(order, sizes, base, next, i, j);
    } else {
      TilesApart(order, sizes, base, next, j, i);
    }
  }

  lemma TilesMore(order: seq<nat>, sizes: map<nat, nat>, base: nat, next: nat, size: nat)
    requires Tiles(order, sizes, base, next) && base % ALIGNMENT == 0 && size % ALIGNMENT == 0 && size >= 2 * HEADER
    ensures next % ALIGNMENT == 0 && next !in sizes && base <= next
    ensures Tiles(order + [next], sizes[next := size], base, next + size)
  {
    if order != [] {
      assert TileOk(order, sizes, next, |order| - 1);
      TilesInside(order, sizes, base, next, order[|order| - 1]);
    }
    if next in sizes {
      TilesInside(order, sizes, base, next, next);
    }
    var more := order + [next];
    var grown, end := sizes[next := size], next + size;
    forall i: nat | i < |more|
      ensures TileOk(more, grown, end, i)
    {
      if i < |order| {
        assert TileOk(order, sizes, next, i);
        assert i + 1 < |order| ==> more[i + 1] == order[i + 1];
      }
    }
  }

  /** The lists hold free blocks, each in the list of its size. */
  ghost predicate ListsOk(lists: seq<seq<nat>>, sizes: map<nat, nat>, words: map<nat, nat>, heads: seq<nat>) {
    && |lists| == |heads| == CLASSES
    && forall c :: 0 <= c < CLASSES ==>
         && Chain(words, heads[c], lists[c]) && NoRepeats(lists[c])
         && forall x :: x in lists[c] ==> x in sizes && InClass(sizes[x], c)
  }

  ghost predicate IsFree(lists: seq<seq<nat>>, x: nat) {
    exists c :: 0 <= c < |lists| && x in lists[c]
  }

  /** Every block is either free or carries the mark of a live one. */
  ghost predicate MarksOk(lists: seq<seq<nat>>, sizes: map<nat, nat>, words: map<nat, nat>) {
    sizes.Keys == words.Keys && forall x :: x in sizes && !IsFree(lists, x) ==> words[x] == MAGIC
  }

  /** The lists after taking the block at position `i` of list `c`. */
  ghost function Taken(lists: seq<seq<nat>>, c: nat, i: nat): seq<seq<nat>>
    requires c < |lists| && i < |lists[c]|
  {
    lists[c := Without(lists[c], i)]
  }

  lemma WithoutMeans(list: seq<nat>, i: nat)
    requires NoRepeats(list) && i < |list|
    ensures NoRepeats(Without(list, i)) && forall x :: x in Without(list, i) <==> x in list && x != list[i]
  {
    var w := Without(list, i);
    forall x | x in list && x != list[i]
      ensures x in w
    {
      var k :| 0 <= k < |list| && list[k] == x;
      assert w[if k < i then k else k - 1] == x;
    }
  }

  /** The other lists do not run through a block of this one. */
  lemma OtherLists(lists: seq<seq<nat>>, sizes: map<nat, nat>, words: map<nat, nat>, heads: seq<nat>, c: nat, d: nat, x: nat)
    requires ListsOk(lists, sizes, words, heads) && c < CLASSES && d < CLASSES && c != d && x in lists[c]
    ensures x !in lists[d]
  {
    hide Chain;
    if x in lists[d] {
      ClassIsUnique(sizes[x], c, d);
    }
  }

  lemma TakenOk(lists: seq<seq<nat>>, sizes: map<nat, nat>, words: map<nat, nat>, heads: seq<nat>, c: nat, i: nat,
                words': map<nat, nat>, heads': seq<nat>)
    requires ListsOk(lists, sizes, words, heads) && c < CLASSES && i < |lists[c]|
    requires lists[c][i] in words && (i > 0 ==> lists[c][i - 1] in words)
    requires i == 0 ==> words' == words && heads' == heads[c := words[lists[c][0]]]
    requires i > 0 ==> heads' == heads && words' == words[lists[c][i - 1] := words[lists[c][i]]]
    ensures ListsOk(Taken(lists, c, i), sizes, words', heads')
  {
    hide Chain;
    var list := lists[c];
    WithoutMeans(list, i);
    if i == 0 {
      ChainTail(words, heads[c], list, 1);
      assert Without(list, 0) == list[1..];
    } else {
      ChainUnlink(words, heads[c], list, i);
    }
    forall d | 0 <= d < CLASSES && d != c
      ensures Chain(words', heads'[d], lists[d])
    {
      if i > 0 {
        OtherLists(lists, sizes, words, heads, c, d, list[i - 1]);
      }
      ChainFrame(words, words', heads[d], lists[d]);
    }
  }

  lemma TakenFree(lists: seq<seq<nat>>, sizes: map<nat, nat>, words: map<nat, nat>, heads: seq<nat>, c: nat, i: nat)
    requires ListsOk(lists, sizes, words, heads) && c < CLASSES && i < |lists[c]|
    ensures forall x :: IsFree(Taken(lists, c, i), x) <==> IsFree(lists, x) && x != lists[c][i]
  {
    hide Chain, InClass;
    var taken, gone := Taken(lists, c, i), lists[c][i];
    WithoutMeans(lists[c], i);
    forall x
      ensures IsFree(taken, x) <==> IsFree(lists, x) && x != gone
    {
      if IsFree(taken, x) {
        var d :| 0 <= d < |taken| && x in taken[d];
        assert x in lists[d];
        if x == gone {
          assert d != c;
          OtherLists(lists, sizes, words, heads, c, d, gone);
        }
      }
      if IsFree(lists, x) && x != gone {
        var d :| 0 <= d < |lists| && x in lists[d];
        assert x in taken[d];
      }
    }
  }

  /** Linking a block in front of a list. */
  lemma AddedOk(lists: seq<seq<nat>>, sizes: map<nat, nat>, words: map<nat, nat>, heads: seq<nat>, c: nat, x: nat)
    requires ListsOk(lists, sizes, words, heads) && c < CLASSES && x in sizes && InClass(sizes[x], c) && x != 0 && !IsFree(lists, x)
    ensures ListsOk(lists[c := [x] + lists[c]], sizes, words[x := heads[c]], heads[c := x])
    ensures forall y :: IsFree(lists[c := [x] + lists[c]], y) <==> IsFree(lists, y) || y == x
  {
    hide InClass;
    var lists', words', heads' := lists[c := [x] + lists[c]], words[x := heads[c]], heads[c := x];
    forall d | 0 <= d < CLASSES
      ensures Chain(words', heads'[d], lists'[d])
    {
      assert x !in lists[d];
      ChainFrame(words, words', heads[d], lists[d]);
      assert ([x] + lists[c])[1..] == lists[c];
    }
    forall y
      ensures IsFree(lists', y) <==> IsFree(lists, y) || y == x
    {
      if IsFree(lists, y) {
        var d :| 0 <= d < |lists| && y in lists[d];
        assert y in lists'[d];
      }
      assert x in lists'[c];
      if IsFree(lists', y) {
        var d :| 0 <= d < |lists'| && y in lists'[d];
        assert y != x ==> y in lists[d];
      }
    }
  }

  /** The bytes of a block behind its header. */
  ghost function Payload(data: seq<Byte>, base: nat, x: nat, size: nat): seq<Byte> {
    if base <= x && HEADER <= size && x + size <= base + |data| then data[x + HEADER - base..x + size - base] else []
  }

  class Heap {
    const base: nat
    const limit: nat
    const data: array<Byte>
    var next: nat
    var mappedEnd: nat
    /** The two header words of every block: its size, and a mark or a link. */
    var sizes: map<nat, nat>
    var words: map<nat, nat>
    var heads: seq<nat>
    ghost var order: seq<nat>
    ghost var lists: seq<seq<nat>>

    ghost predicate Valid()
      reads this
    {
      && base <= next <= limit && base % PAGE == 0 && (base == 0 ==> limit == 0)
      && data.Length == limit - base && Canonical(base, limit)
      && Tiles(order, sizes, base, next) && ListsOk(lists, sizes, words, heads) && MarksOk(lists, sizes, words)
    }

    /** The blocks in use. */
    ghost function Live(): set<nat>
      reads this`sizes, this`lists
    {
      set x | x in sizes && !IsFree(lists, x)
    }

    /** What they hold. */
    ghost function Payloads(): (p: map<nat, seq<Byte>>)
      reads this`sizes, this`lists, data
      ensures p.Keys == Live()
    {
      map x | x in Live() :: Payload(data[..], base, x, sizes[x])
    }

    constructor (base: nat, size: nat)
      requires Canonical(base, base + size)
      ensures Valid() && Live() == {} && fresh(data)
      ensures this.base == if base == 0 || size == 0 || base % PAGE != 0 || size > UINT64_MAX - base then 0 else base
      ensures this.base != 0 ==> limit == base + size && next == mappedEnd == base
    {
      var bad := base == 0 || size == 0 || base % PAGE != 0 || (base <= UINT64_MAX && size > UINT64_MAX - base) || base > UINT64_MAX;
      this.base := if bad then 0 else base;
      this.limit := if bad then 0 else base + size;
      this.next := if bad then 0 else base;
      this.mappedEnd := if bad then 0 else base;
      data := new Byte[if bad then 0 else size](_ => 0);
      sizes, words, heads := map[], map[], seq(CLASSES, _ => 0);
      order, lists := [], seq(CLASSES, _ => []);
    }

    // ---- Free lists --------------------------------------------------------------------------------

    /** The first block of a class that is big enough, unlinked. */
    method TakeFrom(c: nat, need: nat) returns (found: Option<nat>, ghost at: nat)
      requires Valid() && c < CLASSES
      modifies this`words, this`heads, this`lists
      ensures found.None? ==> unchanged(this) && forall x :: x in lists[c] ==> sizes[x] < need
      ensures found.Some? ==>
                && at < |old(lists)[c]| && old(lists)[c][at] == found.value && found.value in sizes && sizes[found.value] >= need
                && lists == Taken(old(lists), c, at) && ListsOk(lists, sizes, words, heads) && words.Keys == old(words).Keys
                && forall x :: x in words && !IsFree(old(lists), x) ==> words[x] == old(words)[x]
    {
      hide Chain, InClass, Tiles, NoRepeats;
      ghost var list := lists[c];
      var previous, current := 0, heads[c];
      at := 0;
      ChainStart(words, heads[c], list);
      while current != 0
        invariant words == old(words) && heads == old(heads) && lists == old(lists)
        invariant 0 <= at <= |list| && current == (if at < |list| then list[at] else 0) && previous == (if at > 0 then list[at - 1] else 0)
        invariant forall k :: 0 <= k < at ==> sizes[list[k]] < need
        decreases |list| - at
      {
        ListMember(lists, sizes, words, heads, c, at);
        if sizes[current] >= need {
          ghost var was := words;
          TakenOk(lists, sizes, words, heads, c, at, if at == 0 then words else words[list[at - 1] := words[list[at]]],
                  if at == 0 then heads[c := words[list[0]]] else heads);
          if previous == 0 {
            heads := heads[c := words[current]];
          } else {
            words := words[previous := words[current]];
          }
          lists := Taken(lists, c, at);
          return Some(current), at;
        }
        previous, current := current, words[current];
        at := at + 1;
      }
      if at < |list| {
        ListMember(lists, sizes, words, heads, c, at);
      }
      assert forall x :: x in list ==> exists k :: 0 <= k < |list| && list[k] == x;
      return None, at;
    }

    /** A free block that is big enough, or none if there is none. */
    method Take(need: nat) returns (found: Option<nat>)
      requires Valid()
      modifies this`words, this`heads, this`lists
      ensures found.None? ==> unchanged(this) && forall x :: x in sizes && IsFree(lists, x) ==> sizes[x] < need
      ensures found.Some? ==>
                && found.value in sizes && sizes[found.value] >= need && IsFree(old(lists), found.value)
                && ListsOk(lists, sizes, words, heads) && words.Keys == old(words).Keys
                && (forall x :: IsFree(lists, x) <==> IsFree(old(lists), x) && x != found.value)
                && forall x :: x in words && !IsFree(old(lists), x) ==> words[x] == old(words)[x]
    {
      hide Tiles, NoRepeats, Chain;
      var c := ClassFor(need);
      ghost var first := c;
      while c < CLASSES
        invariant first <= c <= CLASSES && unchanged(this)
        invariant forall d, x :: first <= d < c && x in lists[d] ==> sizes[x] < need
      {
        ghost var at;
        found, at := TakeFrom(c, need);
        if found.Some? {
          TakenFree(old(lists), sizes, old(words), old(heads), c, at);
          assert found.value in old(lists)[c];
          return;
        }
        c := c + 1;
      }
      forall x | x in sizes && IsFree(lists, x)
        ensures sizes[x] < need
      {
        var d :| 0 <= d < |lists| && x in lists[d];
        if d < first {
          SmallerClass(sizes[x], d, need, first);
        }
      }
      return None;
    }

    // ---- Allocation --------------------------------------------------------------------------------

    /** Maps pages up to an address while there are any. */
    method MapUpTo(end: nat, pages: nat) returns (ok: bool)
      modifies this`mappedEnd
      ensures ok <==> old(mappedEnd) + pages * PAGE >= end
      ensures ok ==> mappedEnd >= end
    {
      var left := pages;
      while mappedEnd < end
        invariant 0 <= left <= pages && mappedEnd == old(mappedEnd) + (pages - left) * PAGE
        decreases left
      {
        if left == 0 {
          return false;
        }
        left := left - 1;
        mappedEnd := mappedEnd + PAGE;
      }
      return true;
    }

    /** No free block fits and the region cannot grow, or there is nothing to be had at all. */
    ghost predicate Exhausted(n: nat, pages: nat)
      requires next <= limit
      reads this
    {
      || n == 0 || base == 0 || BlockSize(n).None?
      || ((forall x :: x in sizes && IsFree(lists, x) ==> sizes[x] < BlockSize(n).value)
          && (BlockSize(n).value > limit - next || mappedEnd + pages * PAGE < next + BlockSize(n).value))
    }

    /** A block of at least `n` bytes behind a header, or 0 when there is none to be had. */
    method Malloc(n: nat, pages: nat) returns (p: nat)
      requires Valid()
      modifies this
      ensures Valid()
      ensures p == 0 <==> old(Exhausted(n, pages))
      ensures p == 0 ==> sizes == old(sizes) && words == old(words) && lists == old(lists)
      ensures p != 0 ==>
                && p >= HEADER && p - HEADER !in old(Live()) && Live() == old(Live()) + {p - HEADER}
                && p - HEADER in sizes && sizes[p - HEADER] >= n + HEADER
                && (p - HEADER !in old(sizes) ==> p - HEADER == old(next) && sizes[p - HEADER] < n + 32)
                && Payloads() - {p - HEADER} == old(Payloads())
      ensures forall x :: x in old(sizes) ==> x in sizes && sizes[x] == old(sizes)[x]
    {
      hide Chain, InClass, NoRepeats, Tiles, ListsOk, Payload, MarksOk, IsFree, Aligned;
      if n == 0 || base == 0 || BlockSize(n).None? {
        return 0;
      }
      var size := BlockSize(n).value;
      var found := Claim(size);
      if found.Some? {
        return found.value + HEADER;
      }
      NextAligned(order, sizes, base, next);
      var start := Aligned(next);
      if start > limit || size > limit - start {
        return 0;
      }
      var mapped := MapUpTo(start + size, pages);
      if !mapped {
        return 0;
      }
      Grow(size);
      return start + HEADER;
    }

    /** A free block that is big enough, made live. */
    method Claim(need: nat) returns (found: Option<nat>)
      requires Valid()
      modifies this`words, this`heads, this`lists
      ensures Valid()
      ensures found.None? ==> unchanged(this) && forall x :: x in sizes && IsFree(lists, x) ==> sizes[x] < need
      ensures found.Some? ==>
                && found.value in sizes && sizes[found.value] >= need && IsFree(old(lists), found.value)
                && found.value !in old(Live()) && Live() == old(Live()) + {found.value} && Payloads() - {found.value} == old(Payloads())
    {
      hide Chain, InClass, NoRepeats, Tiles, ListsOk, Payload;
      found := Take(need);
      if found.Some? {
        Reuse(found.value, old(lists), old(words));
        assert Live() == old(Live()) + {found.value};
      }
    }

    /** Marks a block taken from a list as live. */
    method Reuse(x: nat, ghost before: seq<seq<nat>>, ghost was: map<nat, nat>)
      requires Shape() && ListsOk(lists, sizes, words, heads) && x in sizes && MarksOk(before, sizes, was) && words.Keys == was.Keys
      requires forall y :: IsFree(lists, y) <==> IsFree(before, y) && y != x
      requires forall y :: y in words && !IsFree(before, y) ==> words[y] == was[y]
      modifies this`words
      ensures Valid() && words.Keys == old(words).Keys
    {
      hide Chain, InClass, NoRepeats, Tiles;
      forall c | 0 <= c < CLASSES
        ensures Chain(words[x := MAGIC], heads[c], lists[c])
      {
        assert x !in lists[c];
        ChainFrame(words, words[x := MAGIC], heads[c], lists[c]);
      }
      words := words[x := MAGIC];
    }

    ghost predicate Shape()
      reads this
    {
      && base <= next <= limit && base % PAGE == 0 && (base == 0 ==> limit == 0)
      && data.Length == limit - base && Canonical(base, limit) && Tiles(order, sizes, base, next)
    }

    /** A new block at the end of the region. */
    method Grow(size: nat)
      requires Valid() && size % ALIGNMENT == 0 && size >= 2 * HEADER && next + size <= limit && base != 0
      modifies this`sizes, this`words, this`next, this`order
      ensures Valid() && sizes == old(sizes)[old(next) := size] && old(next) !in old(sizes) && !IsFree(lists, old(next))
      ensures Live() == old(Live()) + {old(next)} && Payloads() - {old(next)} == old(Payloads())
    {
      hide Chain, InClass, NoRepeats, Tiles, ListsOk, MarksOk, IsFree, Payload;
      TilesMore(order, sizes, base, next, size);
      GrownLists(lists, sizes, words, heads, next, size);
      sizes, words, order := sizes[next := size], words[next := MAGIC], order + [next];
      next := next + size;
    }

    /** Frees a live block; freeing it again, or freeing nothing, changes nothing. */
    method Free(p: nat)
      requires Valid() && (p == 0 || (p >= HEADER && p - HEADER in sizes))
      modifies this`words, this`heads, this`lists
      ensures Valid()
      ensures p == 0 || p - HEADER !in old(Live()) ==> unchanged(this)
      ensures p != 0 && p - HEADER in old(Live()) ==> Payloads() == old(Payloads()) - {p - HEADER}
    {
      hide Chain, InClass, NoRepeats, Tiles, Payload, ListsOk, MarksOk, IsFree;
      if p == 0 {
        return;
      }
      var x := p - HEADER;
      MarkedIsLive(x);
      if words[x] != MAGIC {
        return;
      }
      Link(x);
    }

    /** Puts a live block in front of the list for its size. */
    method Link(x: nat)
      requires Valid() && x in Live()
      modifies this`words, this`heads, this`lists
      ensures Valid() && Payloads() == old(Payloads()) - {x}
    {
      hide Chain, InClass, NoRepeats, Tiles, Payload, ListsOk;
      TilesInside(order, sizes, base, next, x);
      ListsShape(lists, sizes, words, heads);
      var c := ClassFor(sizes[x]);
      ClassInRange(sizes[x], c);
      AddedOk(lists, sizes, words, heads, c, x);
      words := words[x := heads[c]];
      heads := heads[c := x];
      lists := lists[c := [x] + lists[c]];
      assert Live() == old(Live()) - {x};
    }

    /** Copies bytes from one block to another. */
    method CopyBlock(from: nat, to: nat, n: nat)
      requires from + n <= data.Length && to + n <= data.Length && (from + n <= to || to + n <= from)
      modifies data
      ensures forall i :: 0 <= i < data.Length ==> data[i] == old(data[if to <= i < to + n then i - to + from else i])
    {
      var k := 0;
      while k < n
        invariant 0 <= k <= n
        invariant forall i :: 0 <= i < data.Length ==> data[i] == old(data[if to <= i < to + k then i - to + from else i])
      {
        data[to + k] := data[from + k];
        k := k + 1;
      }
    }

    /**
     * Grows a block, perhaps by moving it: its bytes go with it, no other live block changes, and
     * a failure changes nothing.
     */
    method Realloc(p: nat, n: nat, pages: nat) returns (q: nat)
      requires Valid() && (p == 0 || (p >= HEADER && p - HEADER in sizes))
      modifies this, data
      ensures Valid()
      ensures p != 0 && n == 0 ==> q == 0 && Payloads() == old(Payloads()) - {p - HEADER}
      ensures q == 0 <==>
              || n == 0 || (p == 0 && old(Exhausted(n, pages))) || (p != 0 && p - HEADER !in old(Live()))
              || (p != 0 && n + HEADER > old(sizes)[p - HEADER] && old(Exhausted(n, pages)))
      ensures q == 0 && (p == 0 || n != 0) ==> Payloads() == old(Payloads())
      ensures q != 0 ==> q >= HEADER && q - HEADER in Live() && sizes[q - HEADER] >= n + HEADER
      ensures q != 0 && p == 0 ==> q - HEADER !in old(Live()) && Payloads() - {q - HEADER} == old(Payloads())
      ensures q != 0 && p != 0 ==>
                && p - HEADER in old(Live()) && (q == p || q - HEADER !in old(Live()))
                && Payloads() - {q - HEADER} == old(Payloads()) - {p - HEADER}
                && old(Payloads())[p - HEADER] <= Payloads()[q - HEADER]
    {
      hide Tiles, ListsOk, MarksOk, IsFree, Payload;
      if p == 0 {
        q := Malloc(n, pages);
        return;
      }
      var x := p - HEADER;
      MarkedIsLive(x);
      if n == 0 {
        Free(p);
        return 0;
      }
      if words[x] != MAGIC {
        return 0;
      }
      TilesInside(order, sizes, base, next, x);
      var capacity := sizes[x] - HEADER;
      if n <= capacity {
        return p;
      }
      q := Malloc(n, pages);
      if q == 0 {
        return;
      }
      ghost var middle := Payloads();
      Move(x, q - HEADER, capacity);
      Free(p);
      MovedMap(old(Payloads()), middle, Payloads(), x, q - HEADER);
    }

    method Move(x: nat, y: nat, n: nat)
      requires Valid() && x in Live() && y in Live() && x != y && sizes[x] == n + HEADER && sizes[y] >= n + HEADER
      modifies data
      ensures Valid() && Payloads() == old(Payloads())[y := Payloads()[y]] && Payloads()[x] <= Payloads()[y]
    {
      hide Tiles, ListsOk, MarksOk, IsFree, Payload;
      TilesInside(order, sizes, base, next, x);
      TilesInside(order, sizes, base, next, y);
      BlocksApart(order, sizes, base, next, x, y);
      ghost var before := data[..];
      CopyBlock(x + HEADER - base, y + HEADER - base, n);
      ghost var after := data[..];
      forall z | z in Live() && z != y
        ensures Payload(after, base, z, sizes[z]) == Payload(before, base, z, sizes[z])
      {
        TilesInside(order, sizes, base, next, z);
        BlocksApart(order, sizes, base, next, z, y);
        PayloadKept(before, after, base, z, sizes[z], y + HEADER - base, y + HEADER - base + n);
      }
      PayloadCopied(before, after, base, x, n, y, sizes[y]);
      assert Payloads()[x] == Payload(before, base, x, sizes[x]);
    }

    lemma MarkedIsLive(x: nat)
      requires Valid() && x in sizes
      ensures x in words && (words[x] == MAGIC <==> x in Live())
    {
      hide Tiles, ListsOk;
      if IsFree(lists, x) {
        LinkIsNoMark(x);
      }
    }

    /** A link is the address of a block, and no block lies where the mark would point. */
    lemma LinkIsNoMark(x: nat)
      requires Valid() && x in sizes && IsFree(lists, x)
      ensures words[x] != MAGIC
    {
      hide Chain, InClass, NoRepeats, Tiles;
      var c :| 0 <= c < |lists| && x in lists[c];
      var i :| 0 <= i < |lists[c]| && lists[c][i] == x;
      ChainAt(words, heads[c], lists[c], i);
      if i + 1 < |lists[c]| {
        assert lists[c][i + 1] in lists[c];
        TilesInside(order, sizes, base, next, lists[c][i + 1]);
      }
    }
  }

  lemma PayloadKept(before: seq<Byte>, after: seq<Byte>, base: nat, x: nat, size: nat, lo: nat, hi: nat)
    requires |before| == |after| && base <= x && x + size <= base + |before|
    requires forall i :: 0 <= i < |before| && !(lo <= i < hi) ==> after[i] == before[i]
    requires x + size <= base + lo || base + hi <= x
    ensures Payload(after, base, x, size) == Payload(before, base, x, size)
  {
  }

  lemma PayloadCopied(before: seq<Byte>, after: seq<Byte>, base: nat, x: nat, n: nat, y: nat, size: nat)
    requires |before| == |after| && base <= x && x + HEADER + n <= base + |before|
    requires base <= y && n + HEADER <= size && y + size <= base + |before|
    requires forall i :: y + HEADER - base <= i < y + HEADER - base + n ==> after[i] == before[i - y + x]
    ensures Payload(before, base, x, n + HEADER) <= Payload(after, base, y, size)
  {
    var p, q := Payload(before, base, x, n + HEADER), Payload(after, base, y, size);
    forall i | 0 <= i < n
      ensures p[i] == q[i]
    {
      assert q[i] == after[y + HEADER - base + i];
    }
  }

  /** Copied over, then the old block freed. */
  lemma MovedMap(before: map<nat, seq<Byte>>, middle: map<nat, seq<Byte>>, after: map<nat, seq<Byte>>, x: nat, y: nat)
    requires x in before && y !in before && middle - {y} == before && y in middle && y in after
    requires after - {y} == middle - {x} - {y} && before[x] <= after[y]
    ensures after - {y} == before - {x}
  {
  }

  lemma NextAligned(order: seq<nat>, sizes: map<nat, nat>, base: nat, next: nat)
    requires Tiles(order, sizes, base, next) && base % PAGE == 0
    ensures Aligned(next) == next
  {
    TilesMore(order, sizes, base, next, 2 * HEADER);
  }

  lemma ListsShape(lists: seq<seq<nat>>, sizes: map<nat, nat>, words: map<nat, nat>, heads: seq<nat>)
    requires ListsOk(lists, sizes, words, heads)
    ensures |lists| == |heads| == CLASSES
  {
  }

  lemma ClassInRange(size: nat, c: nat)
    requires InClass(size, c)
    ensures c < CLASSES
  {
  }

  lemma GrownLists(lists: seq<seq<nat>>, sizes: map<nat, nat>, words: map<nat, nat>, heads: seq<nat>, x: nat, size: nat)
    requires ListsOk(lists, sizes, words, heads) && MarksOk(lists, sizes, words) && x !in sizes
    ensures ListsOk(lists, sizes[x := size], words[x := MAGIC], heads) && MarksOk(lists, sizes[x := size], words[x := MAGIC])
    ensures !IsFree(lists, x)
  {
    hide Chain, InClass, NoRepeats;
    forall c | 0 <= c < CLASSES
      ensures Chain(words[x := MAGIC], heads[c], lists[c]) && x !in lists[c]
    {
      ChainFrame(words, words[x := MAGIC], heads[c], lists[c]);
    }
  }

  lemma ChainStart(words: map<nat, nat>, head: nat, list: seq<nat>)
    requires Chain(words, head, list)
    ensures head == if list == [] then 0 else list[0]
  {
  }

  lemma ListMember(lists: seq<seq<nat>>, sizes: map<nat, nat>, words: map<nat, nat>, heads: seq<nat>, c: nat, i: nat)
    requires ListsOk(lists, sizes, words, heads) && c < CLASSES && i < |lists[c]|
    ensures lists[c][i] in sizes && lists[c][i] in words && lists[c][i] != 0
    ensures words[lists[c][i]] == if i + 1 < |lists[c]| then lists[c][i + 1] else 0
    ensures i > 0 ==> lists[c][i - 1] in words && lists[c][i - 1] != 0
    ensures i > 0 ==> IsFree(lists, lists[c][i - 1])
  {
    hide InClass;
    ChainAt(words, heads[c], lists[c], i);
    assert lists[c][i] in lists[c];
    if i > 0 {
      ChainAt(words, heads[c], lists[c], i - 1);
      assert lists[c][i - 1] in lists[c];
    }
  }
}
