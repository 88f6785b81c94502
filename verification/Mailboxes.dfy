/** A component's mailbox: letters framed in bytes, pushed, popped, checked and stripped in place. */
module Mailboxes {
  import opened ObjectIds

  const MAILBOX_BYTES: nat := 4096
  const SLOTS: nat := 16
  const WORD: nat := 0x1_0000_0000
  const NO_SLOT: nat := 0xFFFF_FFFF

  // ---- Words and frames --------------------------------------------------------------------

  function Power(n: nat): (p: nat)
    ensures p > 0
  {
    if n == 0 then 1 else 256 * Power(n - 1)
  }

  /** The lowest `n` bytes of a number, least significant first. */
  function Digits(v: nat, n: nat): (b: seq<Byte>)
    ensures |b| == n
    decreases n
  {
    if n == 0 then [] else [v % 256] + Digits(v / 256, n - 1)
  }

  function Value(b: seq<Byte>): (v: nat) {
    if b == [] then 0 else (b[0] as int) + 256 * Value(b[1..])
  }

  lemma {:induction false} ValueBound(b: seq<Byte>)
    ensures Value(b) < Power(|b|)
  {
    if b != [] {
      ValueBound(b[1..]);
    }
  }

  lemma {:induction false} DigitsRoundTrip(v: nat, n: nat)
    requires v < Power(n)
    ensures Value(Digits(v, n)) == v
    decreases n
  {
    if n != 0 {
      assert v / 256 < Power(n - 1);
      DigitsRoundTrip(v / 256, n - 1);
      assert Digits(v, n)[1..] == Digits(v / 256, n - 1);
    }
  }

  lemma {:induction false} ValueRoundTrip(b: seq<Byte>)
    ensures Digits(Value(b), |b|) == b
  {
    if b != [] {
      ValueRoundTrip(b[1..]);
      var v := Value(b);
      assert v % 256 == b[0] && v / 256 == Value(b[1..]);
      assert b == [b[0]] + b[1..];
    }
  }

  /** A 32-bit word in memory. */
  function Word(v: nat): (b: seq<Byte>)
    requires v < WORD
    ensures |b| == 4
  {
    Digits(v, 4)
  }

  lemma WordPower()
    ensures Power(4) == WORD
  {
    assert Power(0) == 1 && Power(1) == 256 && Power(2) == 65536 && Power(3) == 16777216;
  }

  lemma WordRoundTrip(v: nat)
    requires v < WORD
    ensures Value(Word(v)) == v
  {
    WordPower();
    DigitsRoundTrip(v, 4);
  }

  lemma WordValue(b: seq<Byte>)
    requires |b| == 4
    ensures Value(b) < WORD && Word(Value(b)) == b
  {
    WordPower();
    ValueBound(b);
    ValueRoundTrip(b);
  }

  /** A letter and the capability slot it carries, if any. */
  datatype Frame = Frame(payload: seq<Byte>, slot: nat)

  ghost predicate FrameOk(f: Frame) {
    |f.payload| <= MAILBOX_BYTES && f.slot < WORD
  }

  ghost predicate FramesOk(frames: seq<Frame>) {
    forall i :: 0 <= i < |frames| ==> FrameOk(frames[i])
  }

  ghost function FrameBytes(f: Frame): seq<Byte>
    requires FrameOk(f)
  {
    Word(|f.payload|) + Word(f.slot) + f.payload
  }

  ghost function Bytes(frames: seq<Frame>): seq<Byte>
    requires FramesOk(frames)
  {
    if frames == [] then [] else FrameBytes(frames[0]) + Bytes(frames[1..])
  }

  lemma {:induction false} BytesAppend(a: seq<Frame>, b: seq<Frame>)
    requires FramesOk(a) && FramesOk(b)
    ensures FramesOk(a + b) && Bytes(a + b) == Bytes(a) + Bytes(b)
  {
    hide FrameBytes, FrameOk;
    if a == [] {
      assert a + b == b;
    } else {
      BytesAppend(a[1..], b);
      assert (a + b)[0] == a[0] && (a + b)[1..] == a[1..] + b;
      assert Bytes(a + b) == FrameBytes(a[0]) + (Bytes(a[1..]) + Bytes(b));
    }
  }

  lemma BytesOne(f: Frame)
    requires FrameOk(f)
    ensures Bytes([f]) == FrameBytes(f)
  {
    assert [f][1..] == [];
  }

  /** Reading a header back gives the frame that was written. */
  lemma FrameHeader(f: Frame, rest: seq<Byte>)
    requires FrameOk(f)
    ensures var b := FrameBytes(f) + rest;
            && |b| >= 8 + |f.payload|
            && Value(b[..4]) == |f.payload| && Value(b[4..8]) == f.slot
            && b[8..8 + |f.payload|] == f.payload && b[8 + |f.payload|..] == rest
  {
    var b := FrameBytes(f) + rest;
    assert b[..4] == Word(|f.payload|);
    assert b[4..8] == Word(f.slot);
    WordRoundTrip(|f.payload|);
    WordRoundTrip(f.slot);
  }

  /** The same for a frame in the middle. */
  lemma FrameAt(bytes: seq<Byte>, before: seq<Byte>, f: Frame, rest: seq<Byte>)
    requires FrameOk(f) && bytes == before + FrameBytes(f) + rest
    ensures var at := |before|;
            at + 8 <= |bytes| && Value(bytes[at..at + 4]) == |f.payload| && Value(bytes[at + 4..at + 8]) == f.slot
  {
    hide Digits, Value, Word, FrameBytes;
    FrameHeader(f, rest);
    var at, tail := |before|, FrameBytes(f) + rest;
    assert bytes[at..] == tail;
    assert bytes[at..at + 4] == tail[..4] && bytes[at + 4..at + 8] == tail[4..8];
  }

  lemma Within(bytes: seq<Byte>, n: nat, i: nat, j: nat)
    requires i <= j <= n <= |bytes|
    ensures bytes[..n][i..j] == bytes[i..j]
  {
  }

  lemma BytesLength(frames: seq<Frame>)
    requires FramesOk(frames)
    ensures frames != [] ==> |Bytes(frames)| >= 8
    ensures frames == [] ==> Bytes(frames) == []
  {
    assert frames != [] ==> |FrameBytes(frames[0])| >= 8;
  }

  /** Framing is unambiguous: the bytes determine the letters. */
  lemma {:induction false} BytesAreInjective(a: seq<Frame>, b: seq<Frame>)
    requires FramesOk(a) && FramesOk(b) && Bytes(a) == Bytes(b)
    ensures a == b
  {
    BytesLength(a);
    BytesLength(b);
    if a != [] && b != [] {
      FrameHeader(a[0], Bytes(a[1..]));
      FrameHeader(b[0], Bytes(b[1..]));
      BytesAreInjective(a[1..], b[1..]);
      assert a == [a[0]] + a[1..] && b == [b[0]] + b[1..];
    }
  }

  // ---- Checking -----------------------------------------------------------------------------

  ghost predicate SlotsOk(frames: seq<Frame>) {
    forall i :: 0 <= i < |frames| ==> frames[i].slot == NO_SLOT || frames[i].slot < SLOTS
  }

  /** Bytes that are exactly some sequence of letters with proper slots. */
  ghost predicate IsMailbox(bytes: seq<Byte>) {
    |bytes| <= MAILBOX_BYTES && exists frames :: FramesOk(frames) && SlotsOk(frames) && Bytes(frames) == bytes
  }

  /** A mailbox that starts with this header must continue like this. */
  lemma MailboxStarts(bytes: seq<Byte>, frames: seq<Frame>)
    requires FramesOk(frames) && SlotsOk(frames) && Bytes(frames) == bytes && bytes != []
    ensures |bytes| >= 8 && frames != [] && FramesOk(frames[1..]) && SlotsOk(frames[1..])
    ensures 8 + Value(bytes[..4]) <= |bytes|
    ensures Value(bytes[4..8]) == NO_SLOT || Value(bytes[4..8]) < SLOTS
    ensures Bytes(frames[1..]) == bytes[8 + Value(bytes[..4])..]
  {
    FrameHeader(frames[0], Bytes(frames[1..]));
  }

  lemma MailboxExtends(bytes: seq<Byte>, rest: seq<Frame>)
    requires 8 <= |bytes| <= MAILBOX_BYTES && 8 + Value(bytes[..4]) <= |bytes|
    requires Value(bytes[4..8]) == NO_SLOT || Value(bytes[4..8]) < SLOTS
    requires FramesOk(rest) && SlotsOk(rest) && Bytes(rest) == bytes[8 + Value(bytes[..4])..]
    ensures var f := Frame(bytes[8..8 + Value(bytes[..4])], Value(bytes[4..8]));
            FramesOk([f] + rest) && SlotsOk([f] + rest) && Bytes([f] + rest) == bytes
  {
    hide Digits, Value, Word;
    var size := Value(bytes[..4]);
    var f := Frame(bytes[8..8 + size], Value(bytes[4..8]));
    WordValue(bytes[..4]);
    WordValue(bytes[4..8]);
    assert FrameBytes(f) == bytes[..8 + size];
    assert ([f] + rest)[1..] == rest;
    assert bytes == bytes[..8 + size] + bytes[8 + size..];
  }

  /** One step of the check: the rest is a mailbox exactly if the whole is. */
  lemma MailboxStep(bytes: seq<Byte>)
    requires 8 <= |bytes| <= MAILBOX_BYTES && 8 + Value(bytes[..4]) <= |bytes|
    requires Value(bytes[4..8]) == NO_SLOT || Value(bytes[4..8]) < SLOTS
    ensures IsMailbox(bytes) <==> IsMailbox(bytes[8 + Value(bytes[..4])..])
  {
    hide Digits, Value, Word, FrameBytes, Bytes, FramesOk, SlotsOk;
    var rest := bytes[8 + Value(bytes[..4])..];
    if IsMailbox(bytes) {
      var frames :| FramesOk(frames) && SlotsOk(frames) && Bytes(frames) == bytes;
      MailboxStarts(bytes, frames);
    }
    if IsMailbox(rest) {
      var frames :| FramesOk(frames) && SlotsOk(frames) && Bytes(frames) == rest;
      MailboxExtends(bytes, frames);
    }
  }

  lemma MailboxBroken(bytes: seq<Byte>)
    requires bytes != [] && (|bytes| < 8 || 8 + Value(bytes[..4]) > |bytes|
                             || (Value(bytes[4..8]) != NO_SLOT && Value(bytes[4..8]) >= SLOTS))
    ensures !IsMailbox(bytes)
  {
    forall frames: seq<Frame> | FramesOk(frames) && SlotsOk(frames)
      ensures Bytes(frames) != bytes
    {
      if frames != [] {
        FrameHeader(frames[0], Bytes(frames[1..]));
      }
    }
  }

  lemma EmptyMailbox()
    ensures IsMailbox([])
  {
    assert FramesOk([]) && SlotsOk([]) && Bytes([]) == [];
  }

  /** Accepts exactly the well-framed mailboxes. */
  method Validate(bytes: seq<Byte>) returns (ok: bool)
    ensures ok <==> IsMailbox(bytes)
  {
    if |bytes| > MAILBOX_BYTES {
      return false;
    }
    var offset := 0;
    assert bytes[0..] == bytes;
    while offset < |bytes|
      invariant 0 <= offset <= |bytes|
      invariant IsMailbox(bytes) <==> IsMailbox(bytes[offset..])
      decreases |bytes| - offset
    {
      var rest := bytes[offset..];
      if |bytes| - offset < 8 {
        MailboxBroken(rest);
        return false;
      }
      var size, slot := Value(rest[..4]), Value(rest[4..8]);
      if (slot != NO_SLOT && slot >= SLOTS) || size > |bytes| - offset - 8 {
        MailboxBroken(rest);
        return false;
      }
      MailboxStep(rest);
      assert rest[8 + size..] == bytes[offset + 8 + size..];
      offset := offset + 8 + size;
    }
    EmptyMailbox();
    assert bytes[offset..] == [];
    return true;
  }

  // ---- Stripping ------------------------------------------------------------------------------

  function Stripped(f: Frame, slot: nat): Frame {
    if f.slot == slot then f.(slot := NO_SLOT) else f
  }

  /** The same letters without the slot: nothing else about them changes. */
  function StripAll(frames: seq<Frame>, slot: nat): (r: seq<Frame>)
    ensures |r| == |frames|
  {
    seq(|frames|, i requires 0 <= i < |frames| => Stripped(frames[i], slot))
  }

  lemma {:induction false} StripLength(frames: seq<Frame>, slot: nat)
    requires FramesOk(frames)
    ensures FramesOk(StripAll(frames, slot)) && |Bytes(StripAll(frames, slot))| == |Bytes(frames)|
  {
    if frames != [] {
      assert StripAll(frames, slot)[1..] == StripAll(frames[1..], slot);
      StripLength(frames[1..], slot);
    }
  }

  /** The same letters without any of these slots. */
  function StripSet(frames: seq<Frame>, slots: set<nat>): (r: seq<Frame>)
    ensures |r| == |frames|
    ensures forall i :: 0 <= i < |frames| ==>
              r[i].payload == frames[i].payload && r[i].slot == if frames[i].slot in slots then NO_SLOT else frames[i].slot
  {
    seq(|frames|, i requires 0 <= i < |frames| => if frames[i].slot in slots then frames[i].(slot := NO_SLOT) else frames[i])
  }

  lemma StripOneMore(frames: seq<Frame>, slots: set<nat>, slot: nat)
    requires slot < SLOTS && NO_SLOT !in slots
    ensures StripAll(StripSet(frames, slots), slot) == StripSet(frames, slots + {slot})
  {
  }

  lemma StripNothing(frames: seq<Frame>)
    ensures StripSet(frames, {}) == frames
  {
  }

  class Mailbox {
    const buffer: array<Byte>
    var used: nat
    /** The letters queued, oldest first. */
    ghost var frames: seq<Frame>

    ghost predicate Valid()
      reads this, buffer
    {
      && buffer.Length == MAILBOX_BYTES && used <= MAILBOX_BYTES
      && FramesOk(frames) && buffer[..used] == Bytes(frames)
    }

    constructor ()
      ensures Valid() && frames == [] && fresh(buffer)
    {
      buffer := new Byte[MAILBOX_BYTES](_ => 0);
      used, frames := 0, [];
      new;
      assert buffer[..0] == [];
    }

    /** A buffer holding these bytes. */
    constructor Load(bytes: seq<Byte>, ghost letters: seq<Frame>)
      requires |bytes| <= MAILBOX_BYTES && FramesOk(letters) && Bytes(letters) == bytes
      ensures Valid() && frames == letters && used == |bytes| && fresh(buffer)
    {
      buffer := new Byte[MAILBOX_BYTES](_ => 0);
      used, frames := |bytes|, letters;
      new;
      Copy(0, bytes);
      assert buffer[..0] + bytes == bytes;
    }

    method PutWord(at: nat, v: nat)
      requires at + 4 <= buffer.Length && v < WORD
      modifies buffer
      ensures buffer[..] == old(buffer[..at]) + Word(v) + old(buffer[at + 4..])
    {
      var word := Word(v);
      buffer[at], buffer[at + 1], buffer[at + 2], buffer[at + 3] := word[0], word[1], word[2], word[3];
    }

    method GetWord(at: nat) returns (v: nat)
      requires at + 4 <= buffer.Length
      ensures v == Value(buffer[at..at + 4])
    {
      v := Value(buffer[at..at + 4]);
    }

    method Copy(at: nat, bytes: seq<Byte>)
      requires at + |bytes| <= buffer.Length
      modifies buffer
      ensures buffer[..at + |bytes|] == old(buffer[..at]) + bytes
    {
      var k := 0;
      while k < |bytes|
        invariant 0 <= k <= |bytes|
        invariant buffer[..at + k] == old(buffer[..at]) + bytes[..k]
      {
        buffer[at + k] := bytes[k];
        k := k + 1;
      }
      assert bytes[..k] == bytes;
    }

    /** Queues a letter if it fits. */
    method Push(payload: seq<Byte>, slot: nat) returns (ok: bool)
      requires Valid() && slot < WORD
      modifies this, buffer
      ensures Valid()
      ensures ok <==> old(used) + 8 + |payload| <= MAILBOX_BYTES
      ensures frames == if ok then old(frames) + [Frame(payload, slot)] else old(frames)
    {
      hide Digits, Value, Word;
      if |payload| > MAILBOX_BYTES - 8 || 8 + |payload| > MAILBOX_BYTES - used {
        return false;
      }
      ghost var f := Frame(payload, slot);
      Copy(used, Word(|payload|) + Word(slot));
      Copy(used + 8, payload);
      BytesOne(f);
      BytesAppend(frames, [f]);
      used := used + 8 + |payload|;
      frames := frames + [f];
      return true;
    }

    /** Takes the oldest letter, unless the caller has no room for it. */
    method Pop(capacity: nat) returns (letter: Option<Frame>)
      requires Valid()
      modifies this, buffer
      ensures Valid()
      ensures letter.Some? <==> old(frames) != [] && |old(frames)[0].payload| <= capacity
      ensures letter.Some? ==> [letter.value] + frames == old(frames)
      ensures letter.None? ==> frames == old(frames)
    {
      hide Digits, Value, Word, FrameBytes;
      BytesLength(frames);
      if used < 8 {
        return None;
      }
      assert frames != [];
      FrameHeader(frames[0], Bytes(frames[1..]));
      ghost var all := Bytes(frames);
      var size := GetWord(0);
      assert buffer[0..4] == all[..4] && buffer[4..8] == all[4..8];
      var slot := GetWord(4);
      if size > used - 8 || size > capacity {
        return None;
      }
      var payload := buffer[8..8 + size];
      assert payload == all[8..8 + size];
      MoveDown(8 + size);
      used := used - (8 + size);
      letter := Some(Frame(payload, slot));
      assert frames == [frames[0]] + frames[1..];
      frames := frames[1..];
    }

    method MoveDown(gap: nat)
      requires gap <= used <= buffer.Length
      modifies buffer
      ensures buffer[..used - gap] == old(buffer[gap..used])
    {
      var k := 0;
      while k < used - gap
        invariant 0 <= k <= used - gap
        invariant forall i :: 0 <= i < k ==> buffer[i] == old(buffer[i + gap])
        invariant forall i :: k <= i < buffer.Length ==> buffer[i] == old(buffer[i])
      {
        buffer[k] := buffer[k + gap];
        k := k + 1;
      }
    }

    method StripAt(offset: nat, slot: nat, ghost before: seq<Byte>, ghost f: Frame, ghost rest: seq<Byte>)
      returns (size: nat, hit: bool)
      requires used <= buffer.Length && |before| == offset && FrameOk(f) && slot < SLOTS
      requires buffer[..used] == before + FrameBytes(f) + rest
      modifies buffer
      ensures size == |f.payload| && (hit <==> f.slot == slot) && FrameOk(Stripped(f, slot))
      ensures buffer[..used] == before + FrameBytes(Stripped(f, slot)) + rest
    {
      hide Digits, Value, Word, FrameBytes;
      ghost var bytes := buffer[..used];
      FrameAt(bytes, before, f, rest);
      Within(buffer[..], used, offset, offset + 4);
      Within(buffer[..], used, offset + 4, offset + 8);
      size := GetWord(offset);
      var at := GetWord(offset + 4);
      hit := at == slot;
      if hit {
        SlotRewrite(before, f, rest, NO_SLOT);
        PutWord(offset + 4, NO_SLOT);
        assert buffer[..used] == bytes[..offset + 4] + Word(NO_SLOT) + bytes[offset + 8..];
      }
    }

    /** Detaches a slot from every queued letter; framing and payloads stay as they are. */
    method Strip(slot: nat) returns (changed: bool)
      requires Valid() && slot < SLOTS
      modifies this`frames, buffer
      ensures Valid() && frames == StripAll(old(frames), slot)
      ensures changed <==> exists i :: 0 <= i < |old(frames)| && old(frames)[i].slot == slot
    {
      hide Digits, Value, Word, FrameBytes, Stripped, StripState, Bytes, StripAll, FramesOk, FrameOk;
      changed := false;
      ghost var i, all := 0, frames;
      var offset := 0;
      StripNone(all, slot);
      while offset < used
        invariant buffer.Length == MAILBOX_BYTES >= used
        invariant i <= |all| && StripState(buffer[..used], all, slot, i, offset)
        invariant changed <==> exists k :: 0 <= k < i && all[k].slot == slot
        decreases used - offset
      {
        StripStateAt(buffer[..used], all, slot, i, offset);
        ghost var before, f, rest := Bytes(StripAll(all[..i], slot)), all[i], Bytes(all[i + 1..]);
        var size, hit := StripAt(offset, slot, before, f, rest);
        changed := changed || hit;
        StripNext(all, slot, i);
        StripStateNext(buffer[..used], all, slot, i, offset, size);
        offset := offset + 8 + size;
        i := i + 1;
      }
      StripDone(buffer[..used], all, slot, i, offset);
      frames := StripAll(all, slot);
    }
  }

  /** Letters before `offset` are stripped, the others as they were. */
  ghost predicate StripState(bytes: seq<Byte>, all: seq<Frame>, slot: nat, i: nat, offset: nat) {
    && i <= |all| && FramesOk(all) && FramesOk(StripAll(all[..i], slot) + all[i..])
    && offset == |Bytes(all[..i])| && bytes == Bytes(StripAll(all[..i], slot) + all[i..])
  }

  lemma StripStateAt(bytes: seq<Byte>, all: seq<Frame>, slot: nat, i: nat, offset: nat)
    requires StripState(bytes, all, slot, i, offset) && offset < |bytes|
    ensures i < |all| && FramesOk(all) && FramesOk(StripAll(all[..i], slot)) && FrameOk(all[i]) && FramesOk(all[i + 1..])
    ensures bytes == Bytes(StripAll(all[..i], slot)) + FrameBytes(all[i]) + Bytes(all[i + 1..])
    ensures |Bytes(StripAll(all[..i], slot))| == offset && FramesOk(all[..i]) && |Bytes(all[..i])| == offset
  {
    hide Digits, Value, Word, FrameBytes, Stripped, Bytes;
    BytesAt(all, slot, i);
  }

  lemma StripStateNext(bytes: seq<Byte>, all: seq<Frame>, slot: nat, i: nat, offset: nat, size: nat)
    requires FramesOk(all) && i < |all| && slot < SLOTS && offset == |Bytes(all[..i])| && size == |all[i].payload|
    requires FramesOk(StripAll(all[..i], slot)) && FrameOk(Stripped(all[i], slot)) && FramesOk(all[i + 1..])
    requires bytes == Bytes(StripAll(all[..i], slot)) + FrameBytes(Stripped(all[i], slot)) + Bytes(all[i + 1..])
    ensures StripState(bytes, all, slot, i + 1, offset + 8 + size)
    ensures offset + 8 + size <= |bytes|
  {
    hide Digits, Value, Word, FrameBytes, Stripped, Bytes;
    StripNext(all, slot, i);
    StripLength(all[..i], slot);
    StrippedLength(all[i], slot);
  }

  lemma StrippedLength(f: Frame, slot: nat)
    requires FrameOk(f)
    ensures FrameOk(Stripped(f, slot)) && |FrameBytes(Stripped(f, slot))| == 8 + |f.payload|
  {
    hide Digits, Value;
  }

  lemma StripNone(all: seq<Frame>, slot: nat)
    requires FramesOk(all)
    ensures StripState(Bytes(all), all, slot, 0, 0)
  {
    assert all[..0] == [] && StripAll(all[..0], slot) + all[0..] == all;
  }

  /** Between the letters already stripped and those still to come. */
  lemma BytesAt(all: seq<Frame>, slot: nat, i: nat)
    requires FramesOk(all) && i <= |all| && |Bytes(all[..i])| < |Bytes(StripAll(all[..i], slot) + all[i..])|
    requires FramesOk(StripAll(all[..i], slot) + all[i..])
    ensures i < |all| && FramesOk(StripAll(all[..i], slot)) && FrameOk(all[i]) && FramesOk(all[i + 1..])
    ensures Bytes(StripAll(all[..i], slot) + all[i..])
            == Bytes(StripAll(all[..i], slot)) + FrameBytes(all[i]) + Bytes(all[i + 1..])
    ensures |Bytes(StripAll(all[..i], slot))| == |Bytes(all[..i])|
  {
    hide Digits, Value, Word, FrameBytes, Stripped;
    StripLength(all[..i], slot);
    BytesAppend(StripAll(all[..i], slot), all[i..]);
    assert all[|all|..] == [];
    if i < |all| {
      assert all[i..][0] == all[i] && all[i..][1..] == all[i + 1..];
    }
  }

  lemma SlotRewrite(before: seq<Byte>, f: Frame, rest: seq<Byte>, slot: nat)
    requires FrameOk(f) && slot < WORD
    ensures var bytes := before + FrameBytes(f) + rest;
            bytes[..|before| + 4] + Word(slot) + bytes[|before| + 8..] == before + FrameBytes(f.(slot := slot)) + rest
  {
    hide Digits, Value;
    var bytes := before + FrameBytes(f) + rest;
    assert bytes[..|before| + 4] == before + Word(|f.payload|);
    assert bytes[|before| + 8..] == f.payload + rest;
  }

  lemma StripNext(all: seq<Frame>, slot: nat, i: nat)
    requires FramesOk(all) && i < |all| && slot < SLOTS
    ensures FramesOk(StripAll(all[..i + 1], slot) + all[i + 1..]) && FramesOk(StripAll(all[..i], slot))
    ensures FrameOk(Stripped(all[i], slot)) && FramesOk(all[i + 1..])
    ensures Bytes(StripAll(all[..i + 1], slot) + all[i + 1..])
            == Bytes(StripAll(all[..i], slot)) + FrameBytes(Stripped(all[i], slot)) + Bytes(all[i + 1..])
    ensures |Bytes(all[..i + 1])| == |Bytes(all[..i])| + 8 + |all[i].payload|
    ensures Stripped(all[i], slot) == if all[i].slot == slot then all[i].(slot := NO_SLOT) else all[i]
  {
    hide Digits, Value;
    var one := Stripped(all[i], slot);
    assert StripAll(all[..i + 1], slot) == StripAll(all[..i], slot) + [one];
    assert all[..i + 1] == all[..i] + [all[i]];
    StripLength(all[..i], slot);
    StripLength(all[..i + 1], slot);
    BytesOne(one);
    BytesOne(all[i]);
    BytesAppend(StripAll(all[..i], slot), [one]);
    BytesAppend(all[..i], [all[i]]);
    BytesAppend(StripAll(all[..i + 1], slot), all[i + 1..]);
  }

  lemma StripDone(bytes: seq<Byte>, all: seq<Frame>, slot: nat, i: nat, offset: nat)
    requires StripState(bytes, all, slot, i, offset) && offset >= |bytes|
    ensures i == |all| && FramesOk(StripAll(all, slot)) && bytes == Bytes(StripAll(all, slot))
  {
    hide Digits, Value, Word, FrameBytes, Stripped, Bytes;
    StripLength(all[..i], slot);
    StripLength(all, slot);
    BytesAppend(StripAll(all[..i], slot), all[i..]);
    BytesLength(all[i..]);
    assert i == |all|;
    assert all[..i] == all && all[i..] == [];
    assert StripAll(all[..i], slot) + all[i..] == StripAll(all, slot);
  }

  // ---- Mailboxes as bytes ----------------------------------------------------------------------

  /** The letters a mailbox holds. */
  ghost function Letters(bytes: seq<Byte>): (frames: seq<Frame>)
    requires IsMailbox(bytes)
    ensures FramesOk(frames) && SlotsOk(frames) && Bytes(frames) == bytes
  {
    var frames :| FramesOk(frames) && SlotsOk(frames) && Bytes(frames) == bytes;
    frames
  }

  /** Letters are read back exactly as they were written. */
  lemma LettersOf(frames: seq<Frame>)
    requires FramesOk(frames) && SlotsOk(frames) && |Bytes(frames)| <= MAILBOX_BYTES
    ensures IsMailbox(Bytes(frames)) && Letters(Bytes(frames)) == frames
  {
    BytesAreInjective(frames, Letters(Bytes(frames)));
  }

  method Queue(bytes: seq<Byte>, payload: seq<Byte>, slot: nat) returns (r: Option<seq<Byte>>)
    requires IsMailbox(bytes) && (slot == NO_SLOT || slot < SLOTS)
    ensures r.Some? <==> |bytes| + 8 + |payload| <= MAILBOX_BYTES
    ensures r.Some? ==> IsMailbox(r.value) && Letters(r.value) == Letters(bytes) + [Frame(payload, slot)]
  {
    hide IsMailbox, Bytes, FramesOk;
    MailboxFits(bytes);
    var mailbox := new Mailbox.Load(bytes, Letters(bytes));
    var ok := mailbox.Push(payload, slot);
    if !ok {
      return None;
    }
    LettersOf(mailbox.frames);
    return Some(mailbox.buffer[..mailbox.used]);
  }

  method Unqueue(bytes: seq<Byte>, slot: nat) returns (r: seq<Byte>, changed: bool)
    requires IsMailbox(bytes) && slot < SLOTS
    ensures IsMailbox(r) && Letters(r) == StripAll(Letters(bytes), slot)
    ensures !changed ==> r == bytes
  {
    hide IsMailbox, Bytes, FramesOk;
    MailboxFits(bytes);
    var mailbox := new Mailbox.Load(bytes, Letters(bytes));
    changed := mailbox.Strip(slot);
    LettersOf(mailbox.frames);
    r := mailbox.buffer[..mailbox.used];
    if !changed {
      assert mailbox.frames == Letters(bytes);
    }
  }

  lemma MailboxFits(bytes: seq<Byte>)
    requires IsMailbox(bytes)
    ensures |bytes| <= MAILBOX_BYTES
  {
  }
}
