/** The physical frame allocator: a bitmap searched from a hint, with a count of what is free. */
module Frames {
  const FRAME_SIZE: nat := 4096
  const FRAME_MAX: nat := 1048576
  const MEMORY_MAX: nat := FRAME_MAX * FRAME_SIZE

  /** A region of the boot memory map. */
  datatype Region = Region(base: nat, length: nat, usable: bool)

  /** The whole frame lies inside the region and below the managed limit. */
  ghost predicate Inside(frame: nat, r: Region) {
    r.usable && frame < FRAME_MAX && r.base <= frame * FRAME_SIZE && (frame + 1) * FRAME_SIZE <= r.base + r.length
  }

  ghost predicate Offered(frame: nat, regions: seq<Region>) {
    exists i :: 0 <= i < |regions| && Inside(frame, regions[i])
  }

  ghost function FreeIn(used: seq<bool>): set<nat> {
    set f | 0 <= f < |used| && !used[f]
  }

  lemma TakenOne(used: seq<bool>, f: nat)
    requires f < |used| && !used[f]
    ensures FreeIn(used[f := true]) == FreeIn(used) - {f} && |FreeIn(used[f := true])| == |FreeIn(used)| - 1
  {
    assert FreeIn(used[f := true]) == FreeIn(used) - {f};
    assert f in FreeIn(used);
  }

  lemma FreedOne(used: seq<bool>, f: nat)
    requires f < |used| && used[f]
    ensures FreeIn(used[f := false]) == FreeIn(used) + {f} && |FreeIn(used[f := false])| == |FreeIn(used)| + 1
  {
    assert FreeIn(used[f := false]) == FreeIn(used) + {f};
    assert f !in FreeIn(used);
  }

  class FrameAllocator {
    var used: seq<bool>
    var freeCount: nat
    var hint: nat

    ghost predicate Valid()
      reads this
    {
      |used| == FRAME_MAX && used[0] && freeCount == |FreeIn(used)| && 1 <= hint < FRAME_MAX
    }

    /** Free are exactly the frames wholly inside usable memory, except frame 0. */
    constructor (regions: seq<Region>)
      ensures Valid()
      ensures forall f: nat :: f < FRAME_MAX ==> (!used[f] <==> f != 0 && Offered(f, regions))
    {
      used := seq(FRAME_MAX, _ => true);
      freeCount, hint := 0, 1;
      new;
      assert FreeIn(used) == {};
      var i := 0;
      while i < |regions|
        invariant 0 <= i <= |regions| && |used| == FRAME_MAX && freeCount == |FreeIn(used)| && hint == 1
        invariant forall f: nat :: f < FRAME_MAX ==> (!used[f] <==> Offered(f, regions[..i]))
      {
        ghost var before := used;
        if regions[i].usable {
          Release(regions[i]);
        }
        OfferedNext(regions, i);
        i := i + 1;
      }
      assert regions[..i] == regions;
      MarkUsed(0);
    }

    method MarkUsed(frame: nat)
      requires |used| == FRAME_MAX && freeCount == |FreeIn(used)|
      modifies this`used, this`freeCount
      ensures |used| == FRAME_MAX && freeCount == |FreeIn(used)|
      ensures used == if frame < FRAME_MAX then old(used)[frame := true] else old(used)
    {
      if frame >= FRAME_MAX || used[frame] {
        return;
      }
      TakenOne(used, frame);
      used := used[frame := true];
      freeCount := freeCount - 1;
    }

    method MarkFree(frame: nat)
      requires |used| == FRAME_MAX && freeCount == |FreeIn(used)|
      modifies this`used, this`freeCount
      ensures |used| == FRAME_MAX && freeCount == |FreeIn(used)|
      ensures used == if frame < FRAME_MAX then old(used)[frame := false] else old(used)
    {
      if frame >= FRAME_MAX || !used[frame] {
        return;
      }
      FreedOne(used, frame);
      used := used[frame := false];
      freeCount := freeCount + 1;
    }

    method Release(r: Region)
      requires |used| == FRAME_MAX && freeCount == |FreeIn(used)| && r.usable
      modifies this`used, this`freeCount
      ensures |used| == FRAME_MAX && freeCount == |FreeIn(used)|
      ensures forall f: nat :: f < FRAME_MAX ==> (!used[f] <==> !old(used)[f] || Inside(f, r))
    {
      if r.base >= MEMORY_MAX {
        return;
      }
      var end := if r.length > MEMORY_MAX - r.base then MEMORY_MAX else r.base + r.length;
      var first, last := (r.base + FRAME_SIZE - 1) / FRAME_SIZE, end / FRAME_SIZE;
      RoundedInside(r);
      var frame := first;
      while frame < last
        invariant first <= frame && (frame <= last || frame == first)
        invariant |used| == FRAME_MAX && freeCount == |FreeIn(used)|
        invariant forall f: nat :: f < FRAME_MAX ==> (!used[f] <==> !old(used)[f] || first <= f < frame)
      {
        MarkFree(frame);
        frame := frame + 1;
      }
    }

    method AllocateBetween(first: nat, end: nat) returns (frame: nat)
      requires Valid() && 1 <= first <= FRAME_MAX && end <= FRAME_MAX
      modifies this
      ensures Valid()
      ensures frame != 0 ==> first <= frame < end && !old(used)[frame] && used == old(used)[frame := true]
      ensures frame != 0 ==> freeCount == old(freeCount) - 1
      ensures frame == 0 ==> used == old(used) && freeCount == old(freeCount) && hint == old(hint)
      ensures frame == 0 ==> forall f :: first <= f < end ==> used[f]
      ensures frame != 0 ==>
                && (forall f :: first <= f < frame ==> old(used)[f])
                && hint == if frame + 1 == 1048576 then 1 else frame + 1
    {
      frame := first;
      while frame < end
        invariant first <= frame && (frame <= end || frame == first)
        invariant used == old(used) && freeCount == old(freeCount) && hint == old(hint)
        invariant forall f :: first <= f < frame && f < end ==> used[f]
      {
        if !used[frame] {
          TakenOne(used, frame);
          MarkUsed(frame);
          hint := if frame + 1 >= FRAME_MAX then 1 else frame + 1;
          return;
        }
        frame := frame + 1;
      }
      frame := 0;
    }

    /**
     * The next frame nobody held, going around from where the last one was found, or 0 exactly
     * when every frame is held.
     */
    method Allocate() returns (frame: nat)
      requires Valid()
      modifies this
      ensures Valid()
      ensures frame == 0 <==> old(freeCount) == 0
      ensures frame != 0 ==> frame < FRAME_MAX && !old(used)[frame] && used == old(used)[frame := true]
      ensures frame != 0 ==> freeCount == old(freeCount) - 1
      ensures frame == 0 ==> used == old(used) && freeCount == old(freeCount)
      ensures frame != 0 ==>
                && hint == (if frame + 1 == 1048576 then 1 else frame + 1)
                && if frame >= old(hint) then forall f :: old(hint) <= f < frame ==> old(used)[f]
                   else forall f :: 1 <= f < frame || old(hint) <= f < 1048576 ==> old(used)[f]
    {
      frame := AllocateBetween(hint, FRAME_MAX);
      if frame == 0 {
        frame := AllocateBetween(1, hint);
        if frame == 0 {
          assert FreeIn(used) == {};
        }
      }
      if frame != 0 {
        assert frame in FreeIn(old(used));
      }
    }

    /** Gives a frame back; anything that is not a held frame address is ignored. */
    method Free(address: nat)
      requires Valid()
      modifies this
      ensures Valid()
      ensures used == if address != 0 && address % FRAME_SIZE == 0 && address / FRAME_SIZE < FRAME_MAX
                      then old(used)[address / FRAME_SIZE := false] else old(used)
      ensures hint == if used != old(used) && address / 4096 < old(hint) then address / 4096 else old(hint)
    {
      if address == 0 || address % FRAME_SIZE != 0 {
        return;
      }
      var frame := address / FRAME_SIZE;
      if frame >= FRAME_MAX || !used[frame] {
        return;
      }
      MarkFree(frame);
      if frame < hint {
        hint := frame;
      }
    }
  }

  lemma RoundedInside(r: Region)
    requires r.usable && r.base < MEMORY_MAX
    ensures var end := if r.length > MEMORY_MAX - r.base then MEMORY_MAX else r.base + r.length;
            forall f: nat :: f < FRAME_MAX ==>
              (Inside(f, r) <==> (r.base + FRAME_SIZE - 1) / FRAME_SIZE <= f < end / FRAME_SIZE)
    ensures var end := if r.length > MEMORY_MAX - r.base then MEMORY_MAX else r.base + r.length; end / FRAME_SIZE <= FRAME_MAX
  {
  }

  lemma OfferedNext(regions: seq<Region>, i: nat)
    requires i < |regions|
    ensures forall f: nat :: Offered(f, regions[..i + 1]) <==> Offered(f, regions[..i]) || Inside(f, regions[i])
  {
    forall f: nat
      ensures Offered(f, regions[..i + 1]) <==> Offered(f, regions[..i]) || Inside(f, regions[i])
    {
      if Offered(f, regions[..i]) {
        var k :| 0 <= k < i && Inside(f, regions[..i][k]);
        assert regions[..i + 1][k] == regions[..i][k];
      }
      if Inside(f, regions[i]) {
        assert regions[..i + 1][i] == regions[i];
      }
      if Offered(f, regions[..i + 1]) {
        var k :| 0 <= k < i + 1 && Inside(f, regions[..i + 1][k]);
        assert k < i ==> regions[..i][k] == regions[..i + 1][k];
      }
    }
  }
}
