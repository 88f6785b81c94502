/** The sector allocator: a bitmap scanned first fit. */
module Bitmap {
  import opened Layout

  function Marked(b: seq<bool>, first: nat, count: nat): seq<bool> {
    seq(|b|, s requires 0 <= s < |b| => b[s] || first <= s < first + count)
  }

  function Cleared(b: seq<bool>, first: nat, count: nat): seq<bool> {
    seq(|b|, s requires 0 <= s < |b| => b[s] && !(first <= s < first + count))
  }

  ghost predicate FreeRun(b: seq<bool>, first: nat, count: nat) {
    && FIRST_ALLOCATABLE <= first
    && first + count <= |b|
    && forall s :: first <= s < first + count ==> !b[s]
  }

  /** `first` is where a first-fit scan puts a run of `count` sectors. */
  ghost predicate FirstFit(b: seq<bool>, first: nat, count: nat) {
    && count != 0
    && FreeRun(b, first, count)
    && forall f: nat :: f < first ==> !FreeRun(b, f, count)
  }

  /** Allocating runs of these sizes in turn, each first fit, never fails. */
  ghost predicate AllFit(b: seq<bool>, needs: seq<nat>)
    decreases |needs|
  {
    needs == [] || exists f: nat :: FirstFit(b, f, needs[0]) && AllFit(Marked(b, f, needs[0]), needs[1..])
  }

  lemma FitNext(b: seq<bool>, needs: seq<nat>, first: nat)
    requires needs != [] && FirstFit(b, first, needs[0])
    ensures AllFit(b, needs) <==> AllFit(Marked(b, first, needs[0]), needs[1..])
  {
    hide FreeRun, Marked;
  }

  lemma FirstFitIsUnique(b: seq<bool>, f: nat, g: nat, count: nat)
    requires FirstFit(b, f, count) && FirstFit(b, g, count)
    ensures f == g
  {
    hide FreeRun;
    assert FreeRun(b, f, count) && FreeRun(b, g, count);
  }

  /** The bitmap once all these runs are allocated. */
  ghost function FitAll(b: seq<bool>, needs: seq<nat>): (after: seq<bool>)
    requires AllFit(b, needs)
    ensures |after| == |b|
    decreases |needs|
  {
    if needs == [] then b
    else
      var f: nat :| FirstFit(b, f, needs[0]) && AllFit(Marked(b, f, needs[0]), needs[1..]);
      FitAll(Marked(b, f, needs[0]), needs[1..])
  }

  lemma FitAllNext(b: seq<bool>, needs: seq<nat>, first: nat)
    requires needs != [] && FirstFit(b, first, needs[0]) && AllFit(b, needs)
    ensures AllFit(Marked(b, first, needs[0]), needs[1..]) && FitAll(b, needs) == FitAll(Marked(b, first, needs[0]), needs[1..])
  {
    hide FirstFit, Marked;
    FitNext(b, needs, first);
    var f: nat :| FirstFit(b, f, needs[0]) && AllFit(Marked(b, f, needs[0]), needs[1..])
                  && FitAll(b, needs) == FitAll(Marked(b, f, needs[0]), needs[1..]);
    FirstFitIsUnique(b, f, first, needs[0]);
  }

  // ---- Room --------------------------------------------------------------------------------------

  function Sum(needs: seq<nat>): nat {
    if needs == [] then 0 else needs[0] + Sum(needs[1..])
  }

  /** Nothing is marked from `f` on. */
  ghost predicate Spare(b: seq<bool>, f: nat) {
    FIRST_ALLOCATABLE <= f <= |b| && forall s :: f <= s < |b| ==> !b[s]
  }

  /** Where some run is free, some run is the first. */
  lemma {:induction false} FitsSomewhere(b: seq<bool>, f: nat, count: nat) returns (first: nat)
    requires count != 0 && FreeRun(b, f, count)
    ensures first <= f && FirstFit(b, first, count)
    decreases f
  {
    hide FreeRun;
    if g: nat :| g < f && FreeRun(b, g, count) {
      first := FitsSomewhere(b, g, count);
    } else {
      first := f;
    }
  }

  /** A free tail that is long enough takes any runs, and what is left of it stays free. */
  lemma {:induction false} SpareFits(b: seq<bool>, f: nat, needs: seq<nat>)
    requires Spare(b, f) && f + Sum(needs) <= |b| && forall i :: 0 <= i < |needs| ==> needs[i] != 0
    ensures AllFit(b, needs) && Spare(FitAll(b, needs), f + Sum(needs))
    decreases |needs|
  {
    if needs != [] {
      var first := FitsSomewhere(b, f, needs[0]);
      SpareFits(Marked(b, first, needs[0]), f + needs[0], needs[1..]);
      FitNext(b, needs, first);
      FitAllNext(b, needs, first);
    }
  }

  /** Clearing a run that was free when it was marked restores the bitmap. */
  lemma ClearUndoesMark(b: seq<bool>, first: nat, count: nat)
    requires FreeRun(b, first, count)
    ensures Cleared(Marked(b, first, count), first, count) == b
  {
  }

  class Allocator {
    const bits: array<bool>

    ghost function Bits(): seq<bool>
      reads bits
    {
      bits[..]
    }

    constructor (sectors: nat)
      ensures fresh(bits) && Bits() == seq(sectors, _ => false)
    {
      bits := new bool[sectors](_ => false);
    }

    /** Sectors past the end of the device read as taken. */
    method Test(s: nat) returns (taken: bool)
      ensures taken == (s >= bits.Length || bits[s])
    {
      taken := s >= bits.Length || bits[s];
    }

    method SetRange(first: nat, count: nat)
      modifies bits
      ensures Bits() == Marked(old(Bits()), first, count)
    {
      var index := 0;
      while index < count
        invariant 0 <= index <= count
        invariant Bits() == Marked(old(Bits()), first, index)
      {
        if first + index < bits.Length {
          bits[first + index] := true;
        }
        index := index + 1;
      }
    }

    method ClearRange(first: nat, count: nat)
      modifies bits
      ensures Bits() == Cleared(old(Bits()), first, count)
    {
      var index := 0;
      while index < count
        invariant 0 <= index <= count
        invariant Bits() == Cleared(old(Bits()), first, index)
      {
        if first + index < bits.Length {
          bits[first + index] := false;
        }
        index := index + 1;
      }
    }

    method ClearAll()
      modifies bits
      ensures Bits() == seq(bits.Length, _ => false)
    {
      forall s | 0 <= s < bits.Length {
        bits[s] := false;
      }
    }

    /** First fit: the lowest free run long enough, or failure exactly when there is none. */
    method Allocate(count: nat) returns (ok: bool, first: nat)
      modifies bits
      ensures ok ==> FirstFit(old(Bits()), first, count)
      ensures ok ==> Bits() == Marked(old(Bits()), first, count)
      ensures !ok ==> Bits() == old(Bits())
      ensures !ok ==> count == 0 || forall f: nat :: !FreeRun(old(Bits()), f, count)
    {
      if count == 0 || count > bits.Length {
        return false, 0;
      }
      ghost var b := Bits();
      var run := 0;
      var sector := FIRST_ALLOCATABLE;
      while sector < bits.Length
        invariant FIRST_ALLOCATABLE <= sector
        invariant sector <= bits.Length || run == 0
        invariant run < count && run <= sector - FIRST_ALLOCATABLE
        invariant Bits() == b
        invariant sector <= bits.Length ==> forall s :: sector - run <= s < sector ==> !b[s]
        invariant sector - run > FIRST_ALLOCATABLE ==> sector - run - 1 < bits.Length && b[sector - run - 1]
        invariant forall f: nat :: f + count <= sector ==> !FreeRun(b, f, count)
      {
        var taken := Test(sector);
        if taken {
          run := 0;
          forall f: nat | f + count == sector + 1
            ensures !FreeRun(b, f, count)
          {
            assert b[sector];
          }
        } else {
          run := run + 1;
          if run == count {
            first := sector - count + 1;
            SetRange(first, count);
            return true, first;
          }
          forall f: nat | f + count == sector + 1
            ensures !FreeRun(b, f, count)
          {
            assert f < sector + 1 - run;
          }
        }
        sector := sector + 1;
      }
      return false, 0;
    }
  }
}
