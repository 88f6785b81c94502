/**
 * A disk behind a volatile write buffer. A write may succeed, fail without reaching the
 * buffer, or fail after reaching it; a crash keeps any subset of the buffered writes,
 * in order; a flush makes all of them durable.
 */
module BlockDevice {
  import opened Layout

  datatype Write = Write(sector: nat, record: Record)

  /** What the hardware does with one request: serve it, drop it, or serve it and report failure. */
  datatype Fault = Served | Lost | Landed

  /**
   * The disk as recovery may find it: `cur` is what a read returns now, `maybe[s]` is every
   * value sector `s` could hold if the power failed now.
   */
  datatype Platter = Platter(cur: seq<Record>, maybe: seq<set<Record>>)

  ghost predicate InRange(durable: seq<Record>, pending: seq<Write>) {
    forall i :: 0 <= i < |pending| ==> pending[i].sector < |durable|
  }

  ghost function Wrote(p: Platter, s: nat, r: Record): Platter
    requires s < |p.cur| == |p.maybe|
  {
    Platter(p.cur[s := r], p.maybe[s := p.maybe[s] + {r}])
  }

  ghost function Settled(img: seq<Record>): Platter {
    Platter(img, seq(|img|, s requires 0 <= s < |img| => {img[s]}))
  }

  ghost function Observe(durable: seq<Record>, pending: seq<Write>): (p: Platter)
    requires InRange(durable, pending)
    ensures |p.cur| == |p.maybe| == |durable|
    ensures forall s :: 0 <= s < |durable| ==> p.cur[s] in p.maybe[s] && durable[s] in p.maybe[s]
    decreases |pending|
  {
    if pending == [] then Settled(durable)
    else
      var last := pending[|pending| - 1];
      Wrote(Observe(durable, pending[..|pending| - 1]), last.sector, last.record)
  }

  /** Every sector holds some value it might hold. */
  ghost predicate IsImage(p: Platter, img: seq<Record>) {
    |img| == |p.maybe| && forall s :: 0 <= s < |img| ==> img[s] in p.maybe[s]
  }

  /** The durable image after a crash that keeps exactly the buffered writes marked in `keep`. */
  ghost function Survivors(durable: seq<Record>, pending: seq<Write>, keep: seq<bool>): (img: seq<Record>)
    requires InRange(durable, pending) && |keep| == |pending|
    ensures |img| == |durable|
    decreases |pending|
  {
    if pending == [] then durable
    else
      var n := |pending| - 1;
      var before := Survivors(durable, pending[..n], keep[..n]);
      if keep[n] then before[pending[n].sector := pending[n].record] else before
  }

  /** Whatever subset of the buffer survives, the result is an image of the platter. */
  lemma {:induction false} CrashYieldsImage(durable: seq<Record>, pending: seq<Write>, keep: seq<bool>)
    requires InRange(durable, pending) && |keep| == |pending|
    ensures IsImage(Observe(durable, pending), Survivors(durable, pending, keep))
    decreases |pending|
  {
    if pending != [] {
      var n := |pending| - 1;
      CrashYieldsImage(durable, pending[..n], keep[..n]);
    }
  }

  /** Conversely every image is what some crash leaves behind, so images are exactly the crashes. */
  lemma {:induction false} ImageComesFromCrash(durable: seq<Record>, pending: seq<Write>, img: seq<Record>)
    returns (keep: seq<bool>)
    requires InRange(durable, pending)
    requires IsImage(Observe(durable, pending), img)
    ensures |keep| == |pending| && Survivors(durable, pending, keep) == img
    decreases |pending|
  {
    if pending == [] {
      keep := [];
      assert durable == img;
    } else {
      var n := |pending| - 1;
      var last := pending[n];
      var p := Observe(durable, pending[..n]);
      var kept := img[last.sector] == last.record;
      // When the last write is kept, the sector's earlier content does not matter.
      var earlier := if kept then img[last.sector := p.cur[last.sector]] else img;
      var rest := ImageComesFromCrash(durable, pending[..n], earlier);
      keep := rest + [kept];
      assert keep[..n] == rest;
    }
  }

  class Device {
    const faults: nat -> Fault
    var clock: nat
    var durable: seq<Record>
    var pending: seq<Write>
    /** Every platter the device has been in, one per request. */
    ghost var history: seq<Platter>

    ghost predicate Valid()
      reads this
    {
      InRange(durable, pending) && clock == |history|
    }

    /** Some request since the `from`-th was not served. */
    ghost predicate FaultedSince(from: nat)
      reads this
    {
      exists c: nat :: from <= c < |history| && !faults(c).Served?
    }

    ghost function View(): Platter
      requires Valid()
      reads this
    {
      Observe(durable, pending)
    }

    constructor (image: seq<Record>, faults: nat -> Fault)
      ensures Valid() && View() == Settled(image) && history == [] && |durable| == |image|
      ensures this.faults == faults
    {
      this.faults := faults;
      clock, durable, pending := 0, image, [];
      history := [];
    }

    method ReadSector(s: nat) returns (r: Record)
      requires Valid() && s < |durable|
      ensures r == View().cur[s]
    {
      r := durable[s];
      var i := 0;
      while i < |pending|
        invariant 0 <= i <= |pending|
        invariant r == Observe(durable, pending[..i]).cur[s]
      {
        assert pending[..i + 1][..i] == pending[..i];
        if pending[i].sector == s {
          r := pending[i].record;
        }
        i := i + 1;
      }
      assert pending[..i] == pending;
    }

    method WriteSector(s: nat, r: Record) returns (ok: bool)
      requires Valid() && s < |durable|
      modifies this
      ensures Valid() && |durable| == old(|durable|)
      ensures View() == Wrote(old(View()), s, r) || (!ok && View() == old(View()))
      ensures history == old(history) + [View()]
      ensures ok <==> faults(old(clock)).Served?
      ensures !ok ==> FaultedSince(old(|history|))
    {
      var fault := faults(clock);
      clock := clock + 1;
      ok := fault.Served?;
      if !fault.Lost? {
        pending := pending + [Write(s, r)];
        assert pending[..|pending| - 1] == old(pending);
      }
      history := history + [Observe(durable, pending)];
    }

    method Flush() returns (ok: bool)
      requires Valid()
      modifies this
      ensures Valid() && |durable| == old(|durable|)
      ensures View() == Settled(old(View()).cur) || (!ok && View() == old(View()))
      ensures history == old(history) + [View()]
      ensures ok <==> faults(old(clock)).Served?
      ensures !ok ==> FaultedSince(old(|history|))
    {
      var fault := faults(clock);
      clock := clock + 1;
      ok := fault.Served?;
      if !fault.Lost? {
        var i := 0;
        var image := durable;
        while i < |pending|
          invariant 0 <= i <= |pending|
          invariant image == Observe(durable, pending[..i]).cur
        {
          assert pending[..i + 1][..i] == pending[..i];
          image := image[pending[i].sector := pending[i].record];
          i := i + 1;
        }
        assert pending[..i] == pending;
        durable := image;
        pending := [];
      }
      history := history + [Observe(durable, pending)];
    }
  }
}
