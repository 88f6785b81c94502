/**
 * Recording what a component asked its kernel and what it was told, and playing that back to a
 * fresh copy. A handler is any deterministic machine that asks, is answered, and stops.
 */
module Replays {
  import opened ObjectIds
  import opened Mailboxes

  const LOG_MAX: nat := 65536
  const IO_MAX: nat := 8192
  const HEADER: nat := 96
  const KIND_MAX: nat := 32
  const ARGUMENTS: nat := 8
  const LONG: nat := 0x1_0000_0000_0000_0000

  // ---- Packed records ---------------------------------------------------------------------------

  function Total(widths: seq<nat>): nat {
    if widths == [] then 0 else widths[0] + Total(widths[1..])
  }

  /** Fields one after the other, least significant byte first. */
  function Pack(values: seq<nat>, widths: seq<nat>): (b: seq<Byte>)
    requires |values| == |widths|
    ensures |b| == Total(widths)
  {
    if values == [] then [] else Digits(values[0], widths[0]) + Pack(values[1..], widths[1..])
  }

  function Unpack(bytes: seq<Byte>, widths: seq<nat>): (values: seq<nat>)
    requires |bytes| == Total(widths)
    ensures |values| == |widths|
  {
    if widths == [] then [] else [Value(bytes[..widths[0]])] + Unpack(bytes[widths[0]..], widths[1..])
  }

  /** A packed record is read back as it was written. */
  lemma {:induction false} PackRoundTrip(values: seq<nat>, widths: seq<nat>)
    requires |values| == |widths| && forall i :: 0 <= i < |values| ==> values[i] < Power(widths[i])
    ensures Unpack(Pack(values, widths), widths) == values
  {
    if values != [] {
      var first, rest := Digits(values[0], widths[0]), Pack(values[1..], widths[1..]);
      assert (first + rest)[..widths[0]] == first && (first + rest)[widths[0]..] == rest;
      DigitsRoundTrip(values[0], widths[0]);
      PackRoundTrip(values[1..], widths[1..]);
    }
  }

  // ---- Events -----------------------------------------------------------------------------------

  /** Eight machine words. */
  type Args = a: seq<nat> | |a| == ARGUMENTS && forall i :: 0 <= i < |a| ==> a[i] < LONG witness [0, 0, 0, 0, 0, 0, 0, 0]

  /** One call: what was asked, and what was answered. */
  datatype Event = Event(kind: nat, sequence: nat, args: Args, result: nat, input: seq<Byte>, output: seq<Byte>)

  ghost predicate EventOk(e: Event) {
    e.kind <= KIND_MAX && e.sequence < LONG && e.result < LONG && |e.input| <= IO_MAX && |e.output| <= IO_MAX
  }

  const WIDTHS: seq<nat> := [4, 4, 8, 8, 8, 8, 8, 8, 8, 8, 8, 8, 4, 4]

  function Fields(e: Event): seq<nat> {
    [e.kind, 0, e.sequence] + e.args + [e.result, |e.input|, |e.output|]
  }

  lemma WidthsTotal()
    ensures |WIDTHS| == 14 && Total(WIDTHS) == HEADER
  {
    assert WIDTHS[1..] == [4, 8, 8, 8, 8, 8, 8, 8, 8, 8, 8, 4, 4];
    assert Total([4, 4]) == 8;
    assert Total([8, 8, 4, 4]) == 24;
    assert Total([8, 8, 8, 8, 4, 4]) == 40;
    assert Total([8, 8, 8, 8, 8, 8, 4, 4]) == 56;
    assert Total([8, 8, 8, 8, 8, 8, 8, 8, 4, 4]) == 72;
    assert Total([8, 8, 8, 8, 8, 8, 8, 8, 8, 8, 4, 4]) == 88;
  }

  function Header(e: Event): (b: seq<Byte>)
    ensures |b| == HEADER
  {
    WidthsTotal();
    Pack(Fields(e), WIDTHS)
  }

  function EventBytes(e: Event): seq<Byte>
  {
    Header(e) + e.input + e.output
  }

  lemma HeaderRoundTrip(e: Event)
    requires EventOk(e)
    ensures |WIDTHS| == 14 && Total(WIDTHS) == HEADER && Unpack(Header(e), WIDTHS) == Fields(e)
  {
    hide Pack, Unpack, Total;
    WidthsTotal();
    Powers();
    PackRoundTrip(Fields(e), WIDTHS);
  }

  lemma Powers()
    ensures Power(4) == WORD && Power(8) == LONG
  {
    WordPower();
    assert Power(5) == 256 * Power(4) && Power(6) == 256 * Power(5) && Power(7) == 256 * Power(6) && Power(8) == 256 * Power(7);
  }

  ghost predicate LogOk(log: seq<Event>) {
    forall i :: 0 <= i < |log| ==> EventOk(log[i]) && log[i].sequence == i
  }

  ghost function LogBytes(log: seq<Event>): seq<Byte>
    decreases |log|
  {
    if log == [] then [] else LogBytes(log[..|log| - 1]) + EventBytes(log[|log| - 1])
  }

  lemma {:induction false} LogSplit(log: seq<Event>, i: nat)
    requires i < |log|
    ensures |LogBytes(log[..i])| + |EventBytes(log[i])| == |LogBytes(log[..i + 1])| <= |LogBytes(log)|
    ensures LogBytes(log[..i]) + EventBytes(log[i]) == LogBytes(log)[..|LogBytes(log[..i + 1])|]
    decreases |log|
  {
    hide EventBytes;
    var n := |log| - 1;
    if i == n {
      assert log[..i + 1] == log;
    } else {
      LogSplit(log[..n], i);
      assert log[..n][..i] == log[..i] && log[..n][..i + 1] == log[..i + 1];
    }
  }

  /** The bytes hold this record at an offset. */
  ghost predicate HoldsAt(bytes: seq<Byte>, at: nat, e: Event) {
    var from := at + HEADER;
    && from + |e.input| + |e.output| <= |bytes|
    && bytes[at..from] == Header(e) && bytes[from..from + |e.input|] == e.input
    && bytes[from + |e.input|..from + |e.input| + |e.output|] == e.output
  }

  lemma SliceHolds(bytes: seq<Byte>, at: nat, end: nat, e: Event)
    requires at <= end <= |bytes| && bytes[at..end] == EventBytes(e)
    ensures HoldsAt(bytes, at, e) && at + HEADER + |e.input| + |e.output| == end
  {
    hide Header;
    var from := at + HEADER;
    assert end == from + |e.input| + |e.output|;
    var middle := HEADER + |e.input|;
    SubSlice(bytes, at, end, 0, HEADER);
    SubSlice(bytes, at, end, HEADER, middle);
    SubSlice(bytes, at, end, middle, end - at);
    assert EventBytes(e)[0..HEADER] == Header(e) && EventBytes(e)[HEADER..middle] == e.input;
    assert EventBytes(e)[middle..end - at] == e.output;
  }

  lemma SubSlice(b: seq<Byte>, at: nat, end: nat, i: nat, j: nat)
    requires at <= end <= |b| && i <= j <= end - at
    ensures b[at..end][i..j] == b[at + i..at + j]
  {
    var x, y := b[at..end][i..j], b[at + i..at + j];
    forall k | 0 <= k < j - i
      ensures x[k] == y[k]
    {
      assert x[k] == b[at..end][i + k] && y[k] == b[at + i + k];
    }
  }

  /** The record a position in the log stands for. */
  lemma EventAt(log: seq<Event>, bytes: seq<Byte>, i: nat)
    requires LogOk(log) && i < |log| && bytes == LogBytes(log)
    ensures HoldsAt(bytes, |LogBytes(log[..i])|, log[i])
    ensures |LogBytes(log[..i])| + HEADER + |log[i].input| + |log[i].output| == |LogBytes(log[..i + 1])| <= |bytes|
  {
    hide LogBytes, EventBytes, HoldsAt;
    LogSplit(log, i);
    var at, end := |LogBytes(log[..i])|, |LogBytes(log[..i + 1])|;
    assert bytes[..end][at..] == bytes[at..end];
    SliceHolds(bytes, at, end, log[i]);
  }

  // ---- Machines ---------------------------------------------------------------------------------

  datatype Action =
    | Ask(kind: nat, args: Args, input: seq<Byte>, room: nat)
    | Done(memory: seq<Byte>)
    | Trap

  /** A deterministic handler: how it starts, what it does next, how an answer changes it. */
  datatype Machine<!S> = Machine(begin: (nat, bool, seq<Byte>) -> S, act: S -> Action, next: (S, seq<Byte>, nat) -> S)

  predicate Matches(e: Event, kind: nat, args: Args, input: seq<Byte>, room: nat) {
    e.kind == kind && e.args == args && e.input == input && |e.output| == room
  }

  predicate MatchesAction(e: Event, a: Action) {
    a.Ask? && Matches(e, a.kind, a.args, a.input, a.room)
  }

  /** Told these answers, the machine asks exactly these questions and stops with this memory. */
  ghost predicate Answers<S(!new)>(m: Machine<S>, s: S, log: seq<Event>, memory: seq<Byte>)
    decreases |log|
  {
    if log == [] then m.act(s) == Done(memory)
    else MatchesAction(log[0], m.act(s)) && Answers(m, m.next(s, log[0].output, log[0].result), log[1..], memory)
  }

  function Stimulus(now: nat, timer: bool): Args
    requires now < LONG
  {
    [now, if timer then 1 else 0, 0, 0, 0, 0, 0, 0]
  }

  /** The log of one handler: its stimulus, then its questions. */
  ghost predicate Handled<S(!new)>(m: Machine<S>, memory: seq<Byte>, log: seq<Event>, after: seq<Byte>) {
    && log != [] && Matches(log[0], 0, log[0].args, [], 0) && log[0].args[1] <= 1
    && log[0].args == Stimulus(log[0].args[0], log[0].args[1] == 1)
    && Answers(m, m.begin(log[0].args[0], log[0].args[1] == 1, memory), log[1..], after)
  }

  /** The log of a whole run from one memory to another. */
  ghost predicate Runs<S(!new)>(m: Machine<S>, memory: seq<Byte>, log: seq<Event>, after: seq<Byte>)
    decreases |log|
  {
    if log == [] then memory == after
    else exists k, middle :: 1 <= k <= |log| && Handled(m, memory, log[..k], middle) && Runs(m, middle, log[k..], after)
  }

  /** The log decides how far a handler goes and what it leaves. */
  lemma {:induction false} AnswersOnce<S(!new)>(m: Machine<S>, s: S, log: seq<Event>, i: nat, x: seq<Byte>, j: nat, y: seq<Byte>)
    requires i <= |log| && j <= |log| && Answers(m, s, log[..i], x) && Answers(m, s, log[..j], y)
    ensures i == j && x == y
    decreases |log|
  {
    if i > 0 && j > 0 {
      assert log[..i][0] == log[0] && log[..j][0] == log[0];
      assert log[..i][1..] == log[1..][..i - 1] && log[..j][1..] == log[1..][..j - 1];
      AnswersOnce(m, m.next(s, log[0].output, log[0].result), log[1..], i - 1, x, j - 1, y);
    }
  }

  lemma HandledOnce<S(!new)>(m: Machine<S>, memory: seq<Byte>, log: seq<Event>, i: nat, x: seq<Byte>, j: nat, y: seq<Byte>)
    requires 1 <= i <= |log| && 1 <= j <= |log| && Handled(m, memory, log[..i], x) && Handled(m, memory, log[..j], y)
    ensures i == j && x == y
  {
    assert log[..i][0] == log[0] && log[..j][0] == log[0];
    assert log[..i][1..] == log[1..][..i - 1] && log[..j][1..] == log[1..][..j - 1];
    AnswersOnce(m, m.begin(log[0].args[0], log[0].args[1] == 1, memory), log[1..], i - 1, x, j - 1, y);
  }

  /** A run's log and starting memory determine its final memory. */
  lemma {:induction false} RunsOnce<S(!new)>(m: Machine<S>, memory: seq<Byte>, log: seq<Event>, x: seq<Byte>, y: seq<Byte>)
    requires Runs(m, memory, log, x) && Runs(m, memory, log, y)
    ensures x == y
    decreases |log|
  {
    if log != [] {
      var i, a :| 1 <= i <= |log| && Handled(m, memory, log[..i], a) && Runs(m, a, log[i..], x);
      var j, b :| 1 <= j <= |log| && Handled(m, memory, log[..j], b) && Runs(m, b, log[j..], y);
      HandledOnce(m, memory, log, i, a, j, b);
      RunsOnce(m, a, log[i..], x, y);
    }
  }

  /** After the first handler, what is left is a run from its memory. */
  lemma RunsRest<S(!new)>(m: Machine<S>, memory: seq<Byte>, log: seq<Event>, k: nat, middle: seq<Byte>, after: seq<Byte>)
    requires 1 <= k <= |log| && Handled(m, memory, log[..k], middle)
    ensures Runs(m, memory, log, after) <==> Runs(m, middle, log[k..], after)
  {
    if Runs(m, memory, log, after) {
      var i, a :| 1 <= i <= |log| && Handled(m, memory, log[..i], a) && Runs(m, a, log[i..], after);
      HandledOnce(m, memory, log, i, a, k, middle);
    }
  }

  lemma {:induction false} AnswersMore<S(!new)>(m: Machine<S>, s: S, log: seq<Event>, e: Event, t: S)
    requires Asked(m, s, log, t) && MatchesAction(e, m.act(t))
    ensures Asked(m, s, log + [e], m.next(t, e.output, e.result))
    decreases |log|
  {
    if log == [] {
      assert [e][1..] == [];
    } else {
      assert (log + [e])[0] == log[0] && (log + [e])[1..] == log[1..] + [e];
      AnswersMore(m, m.next(s, log[0].output, log[0].result), log[1..], e, t);
    }
  }

  /** Told these answers so far, the machine has come from `s` to `t`. */
  ghost predicate Asked<S(!new)>(m: Machine<S>, s: S, log: seq<Event>, t: S)
    decreases |log|
  {
    if log == [] then s == t
    else MatchesAction(log[0], m.act(s)) && Asked(m, m.next(s, log[0].output, log[0].result), log[1..], t)
  }

  lemma {:induction false} AskedAnswers<S(!new)>(m: Machine<S>, s: S, first: seq<Event>, t: S, rest: seq<Event>, memory: seq<Byte>)
    requires Asked(m, s, first, t)
    ensures Answers(m, s, first + rest, memory) <==> Answers(m, t, rest, memory)
    decreases |first|
  {
    if first == [] {
      assert first + rest == rest;
    } else {
      assert (first + rest)[0] == first[0] && (first + rest)[1..] == first[1..] + rest;
      AskedAnswers(m, m.next(s, first[0].output, first[0].result), first[1..], t, rest, memory);
    }
  }

  /** A machine that goes on asking had not stopped. */
  lemma {:induction false} AskedNotDone<S(!new)>(m: Machine<S>, s: S, log: seq<Event>, t: S, n: nat, memory: seq<Byte>)
    requires Asked(m, s, log, t) && n < |log|
    ensures !Answers(m, s, log[..n], memory)
    decreases |log|
  {
    if n > 0 {
      assert log[..n][0] == log[0] && log[..n][1..] == log[1..][..n - 1];
      AskedNotDone(m, m.next(s, log[0].output, log[0].result), log[1..], t, n - 1, memory);
    }
  }

  lemma RunsSplit<S(!new)>(m: Machine<S>, a: seq<Byte>, log: seq<Event>, b: seq<Byte>) returns (k: nat, x: seq<Byte>)
    requires Runs(m, a, log, b) && log != []
    ensures 1 <= k <= |log| && Handled(m, a, log[..k], x) && Runs(m, x, log[k..], b)
  {
    hide Handled;
    k, x :| 1 <= k <= |log| && Handled(m, a, log[..k], x) && Runs(m, x, log[k..], b);
  }

  lemma RunsJoined<S(!new)>(m: Machine<S>, a: seq<Byte>, first: seq<Event>, x: seq<Byte>, rest: seq<Event>, b: seq<Byte>)
    requires Handled(m, a, first, x) && Runs(m, x, rest, b)
    ensures Runs(m, a, first + rest, b)
  {
    assert (first + rest)[..|first|] == first && (first + rest)[|first|..] == rest;
  }

  lemma {:induction false} RunsMore<S(!new)>(m: Machine<S>, a: seq<Byte>, log: seq<Event>, b: seq<Byte>, more: seq<Event>, c: seq<Byte>)
    requires Runs(m, a, log, b) && Handled(m, b, more, c)
    ensures Runs(m, a, log + more, c)
    decreases |log|
  {
    hide Runs, Handled;
    if log == [] {
      EmptyRun(m, a, b);
      EmptyRun(m, c, c);
      RunsJoined(m, a, more, c, [], c);
      assert log + more == more + [];
    } else {
      var k, x := RunsSplit(m, a, log, b);
      RunsMore(m, x, log[k..], b, more, c);
      RunsJoined(m, a, log[..k], x, log[k..] + more, c);
      assert log + more == log[..k] + (log[k..] + more);
    }
  }

  // ---- Live runs --------------------------------------------------------------------------------

  /** What the kernel answers a live call, given how much was recorded and the room there is. */
  type World = (nat, nat) -> (seq<Byte>, nat)

  ghost predicate Truthful(world: World) {
    forall n, room :: |world(n, room).0| == room && world(n, room).1 < LONG
  }

  ghost predicate CallOk(kind: nat, input: seq<Byte>, room: nat) {
    kind <= KIND_MAX && |input| <= IO_MAX && room <= IO_MAX
  }

  /** The log can take one more record. */
  ghost predicate Fits(log: seq<Event>, e: Event) {
    CallOk(e.kind, e.input, |e.output|) && |LogBytes(log)| + HEADER + |e.input| + |e.output| <= LOG_MAX
  }

  /** A handler going on live: the log and the memory it ends with, if it stops in so many calls and all of them fit. */
  ghost function Live<S(!new)>(m: Machine<S>, s: S, log: seq<Event>, world: World, calls: nat): Option<(seq<Event>, seq<Byte>)>
    decreases calls
  {
    if calls == 0 then None
    else match m.act(s)
      case Done(memory) => Some((log, memory))
      case Trap => None
      case Ask(kind, args, input, room) =>
        var (output, result) := world(|LogBytes(log)|, room);
        var e := Event(kind, |log|, args, result, input, output);
        if Fits(log, e) then Live(m, m.next(s, output, result), log + [e], world, calls - 1) else None
  }

  function Stimulated(sequence: nat, now: nat, timer: bool): Event
    requires now < LONG
  {
    Event(0, sequence, Stimulus(now, timer), 0, [], [])
  }

  ghost function LiveHandler<S(!new)>(m: Machine<S>, memory: seq<Byte>, now: nat, timer: bool, log: seq<Event>,
                                      world: World, calls: nat): Option<(seq<Event>, seq<Byte>)>
    requires now < LONG
  {
    var e := Stimulated(|log|, now, timer);
    if Fits(log, e) then Live(m, m.begin(now, timer, memory), log + [e], world, calls) else None
  }

  /** One handler after the other, each from the memory the last one left. */
  ghost function LiveRun<S(!new)>(m: Machine<S>, memory: seq<Byte>, stimuli: seq<(nat, bool)>, world: World, calls: nat):
    Option<(seq<Event>, seq<Byte>)>
    requires forall i :: 0 <= i < |stimuli| ==> stimuli[i].0 < LONG
    decreases |stimuli|
  {
    if stimuli == [] then Some(([], memory))
    else
      var last := |stimuli| - 1;
      var before := LiveRun(m, memory, stimuli[..last], world, calls);
      if before.None? then None
      else LiveHandler(m, before.value.1, stimuli[last].0, stimuli[last].1, before.value.0, world, calls)
  }

  /** The log of exactly these stimuli, one handler each, from one memory to another. */
  ghost predicate Driven<S(!new)>(m: Machine<S>, memory: seq<Byte>, stimuli: seq<(nat, bool)>, log: seq<Event>, after: seq<Byte>)
    requires forall i :: 0 <= i < |stimuli| ==> stimuli[i].0 < LONG
    decreases |stimuli|
  {
    if stimuli == [] then log == [] && memory == after
    else
      var last := |stimuli| - 1;
      exists k, middle :: 0 <= k < |log| && Driven(m, memory, stimuli[..last], log[..k], middle)
                          && Handled(m, middle, log[k..], after)
                          && log[k] == Stimulated(k, stimuli[last].0, stimuli[last].1)
  }

  // ---- Sessions ---------------------------------------------------------------------------------

  datatype Mode = Off | Record | Play

  datatype Decision = Allowed | Supplied(output: seq<Byte>, result: nat) | Refused

  class Session {
    const bytes: array<Byte>
    var mode: Mode
    var used: nat
    var cursor: nat
    var sequence: nat
    var failed: bool
    /** The recorded calls, and how many of them have been played. */
    ghost var log: seq<Event>
    ghost var position: nat

    ghost predicate Valid()
      reads this, bytes
    {
      && bytes.Length == LOG_MAX && |log| * HEADER <= used <= LOG_MAX && LogOk(log) && bytes[..used] == LogBytes(log)
      && sequence <= |log|
      && (mode == Record && !failed ==> sequence == |log|)
      && (mode == Play ==> position <= |log| && sequence == position && cursor == |LogBytes(log[..position])|)
    }

    constructor ()
      ensures Valid() && mode == Record && log == [] && !failed && fresh(bytes) && used == 0
    {
      bytes := new Byte[LOG_MAX](_ => 0);
      mode, used, cursor, sequence, failed := Record, 0, 0, 0, false;
      log, position := [], 0;
      new;
      assert bytes[..0] == [];
    }

    method Copy(at: nat, data: seq<Byte>)
      requires at + |data| <= bytes.Length
      modifies bytes
      ensures bytes[..at + |data|] == old(bytes[..at]) + data
    {
      var k := 0;
      while k < |data|
        invariant 0 <= k <= |data|
        invariant bytes[..at + k] == old(bytes[..at]) + data[..k]
      {
        bytes[at + k] := data[k];
        k := k + 1;
      }
      assert data[..k] == data;
    }

    /** The header at the cursor. */
    method ReadHeader() returns (fields: seq<nat>)
      requires Valid() && mode == Play && position < |log|
      ensures |fields| == 14 && fields[0] == log[position].kind && fields[1] == 0 && fields[2] == sequence
      ensures fields[3..11] == log[position].args && fields[11] == log[position].result
      ensures fields[12] == |log[position].input| && fields[13] == |log[position].output|
      ensures cursor + HEADER + fields[12] + fields[13] == |LogBytes(log[..position + 1])| <= used <= bytes.Length
      ensures bytes[cursor + HEADER..cursor + HEADER + fields[12]] == log[position].input
      ensures bytes[cursor + HEADER + fields[12]..cursor + HEADER + fields[12] + fields[13]] == log[position].output
    {
      hide LogBytes, Unpack, Total, Header, EventOk;
      ghost var e, all := log[position], bytes[..used];
      EventAt(log, all, position);
      RecordAt(all, cursor, e);
      assert bytes[cursor..cursor + HEADER] == all[cursor..cursor + HEADER];
      fields := Unpack(bytes[cursor..cursor + HEADER], WIDTHS);
      var from := cursor + HEADER;
      assert bytes[from..from + |e.input|] == all[from..from + |e.input|];
      assert bytes[from + |e.input|..from + |e.input| + |e.output|] == all[from + |e.input|..from + |e.input| + |e.output|];
    }

    /** Is the record at the cursor this very call? Then what was it answered? */
    method Compare(kind: nat, args: Args, input: seq<Byte>, room: nat) returns (decision: Decision, end: nat)
      requires Valid() && mode == Play && CallOk(kind, input, room)
      ensures decision == if position < |log| && Matches(log[position], kind, args, input, room)
                          then Supplied(log[position].output, log[position].result) else Refused
      ensures decision.Supplied? ==> end == |LogBytes(log[..position + 1])|
    {
      hide LogBytes, LogOk;
      end := 0;
      PlayedAll(log, position, used);
      if cursor > used || used - cursor < HEADER {
        return Refused, end;
      }
      var fields := ReadHeader();
      if HEADER + |input| + room > used - cursor || fields[0] != kind || fields[2] != sequence || fields[12] != |input|
         || fields[13] != room || fields[1] != 0 || fields[3..11] != args {
        return Refused, end;
      }
      var from := cursor + HEADER;
      if bytes[from..from + |input|] != input {
        return Refused, end;
      }
      return Supplied(bytes[from + |input|..from + |input| + room], fields[11]), from + |input| + room;
    }

    /** Before a call: let it happen, answer it from the log, or refuse it for good. */
    method Before(kind: nat, args: Args, input: seq<Byte>, room: nat) returns (decision: Decision)
      requires Valid()
      modifies this`failed, this`cursor, this`sequence, this`position
      ensures Valid() && (old(failed) ==> failed)
      ensures mode == Off ==> decision == Allowed
      ensures mode == Record ==> decision == Allowed || (decision == Refused && failed)
      ensures mode == Record ==>
                (decision == Allowed <==> !old(failed) && CallOk(kind, input, room)
                                          && used + HEADER + |input| + room <= LOG_MAX && sequence < UINT64_MAX)
      ensures mode == Play ==>
                (decision.Supplied? <==> !old(failed) && CallOk(kind, input, room)
                                         && old(position) < |log| && Matches(log[old(position)], kind, args, input, room))
      ensures mode == Play && decision.Supplied? ==>
                !failed && position == old(position) + 1
                && decision == Supplied(log[old(position)].output, log[old(position)].result)
      ensures mode == Play && !decision.Supplied? ==> decision == Refused && failed && position == old(position)
      ensures decision == Allowed ==> failed == old(failed) && position == old(position)
    {
      hide LogBytes, Matches, LogOk;
      if mode == Off {
        return Allowed;
      }
      if failed || kind > KIND_MAX || |input| > IO_MAX || room > IO_MAX {
        failed := true;
        return Refused;
      }
      if mode == Record {
        if HEADER + |input| + room > LOG_MAX - used || sequence == UINT64_MAX {
          failed := true;
          return Refused;
        }
        return Allowed;
      }
      var end;
      decision, end := Compare(kind, args, input, room);
      if decision == Refused {
        failed := true;
        return;
      }
      cursor, sequence := end, sequence + 1;
      position := position + 1;
    }

    /** After a call that happened: append it, or give up recording. */
    method After(kind: nat, args: Args, input: seq<Byte>, output: seq<Byte>, result: nat) returns (ok: bool)
      requires Valid() && result < LONG
      modifies this`used, this`sequence, this`failed, this`log, bytes
      ensures Valid()
      ensures mode != Record ==> ok && log == old(log) && failed == old(failed)
      ensures mode == Record ==>
                (ok <==> !old(failed) && CallOk(kind, input, |output|)
                         && old(used) + HEADER + |input| + |output| <= LOG_MAX && old(sequence) < UINT64_MAX)
      ensures mode == Record && ok ==> !failed && log == old(log) + [Event(kind, |old(log)|, args, result, input, output)]
      ensures mode == Record && !ok ==> failed && log == old(log)
    {
      hide LogBytes, Header, LogOk;
      if mode != Record {
        return true;
      }
      if failed || sequence == UINT64_MAX || kind > KIND_MAX || |input| > IO_MAX || |output| > IO_MAX
         || |input| + |output| + HEADER > LOG_MAX - used {
        failed := true;
        return false;
      }
      var e := Event(kind, sequence, args, result, input, output);
      LogNext(log, e);
      Copy(used, Header(e));
      Copy(used + HEADER, input);
      Copy(used + HEADER + |input|, output);
      used := used + HEADER + |input| + |output|;
      sequence := sequence + 1;
      log := log + [e];
      return true;
    }

    method Fail()
      requires Valid()
      modifies this`failed
      ensures Valid() && failed
    {
      hide LogBytes, LogOk;
      failed := true;
    }

    method Rewind()
      requires Valid() && mode == Record
      modifies this`mode, this`cursor, this`sequence, this`position
      ensures Valid() && mode == Play && position == 0
    {
      hide LogBytes, LogOk;
      NoBytes(log);
      mode, cursor, sequence, position := Play, 0, 0, 0;
    }

    // ---- Recording --------------------------------------------------------------------------------

    /** A live call: recorded on both sides, or the session gives up. */
    method Call(kind: nat, args: Args, input: seq<Byte>, output: seq<Byte>, result: nat) returns (ok: bool)
      requires Valid() && mode == Record && result < LONG
      modifies this`used, this`cursor, this`sequence, this`position, this`failed, this`log, bytes
      ensures Valid()
      ensures ok <==> !old(failed) && Fits(old(log), Event(kind, |old(log)|, args, result, input, output))
      ensures ok ==> !failed && log == old(log) + [Event(kind, |old(log)|, args, result, input, output)]
      ensures !ok ==> failed && log == old(log)
    {
      hide LogBytes, CallOk, LogOk;
      var decision := Before(kind, args, input, |output|);
      if decision == Refused {
        return false;
      }
      ok := After(kind, args, input, output, result);
    }

    lemma UsedBytes()
      requires Valid()
      ensures used == |LogBytes(log)|
    {
      hide LogBytes, LogOk;
    }

    /** Runs a handler live and records it. It may be cut short after any number of calls. */
    method RecordHandler<S(!new)>(m: Machine<S>, memory: seq<Byte>, now: nat, timer: bool, world: World, calls: nat)
      returns (after: Option<seq<Byte>>)
      requires Valid() && mode == Record && Truthful(world) && now < LONG
      modifies this`used, this`cursor, this`sequence, this`position, this`failed, this`log, bytes
      ensures Valid() && old(log) <= log
      ensures after.Some? ==> !failed && |old(log)| < |log| && Handled(m, memory, log[|old(log)|..], after.value)
      ensures after.Some? ==> log[|old(log)|] == Stimulated(|old(log)|, now, timer)
      ensures after.None? ==> failed
      ensures !old(failed) ==>
                LiveHandler(m, memory, now, timer, old(log), world, calls) == if after.Some? then Some((log, after.value)) else None
    {
      hide LogBytes, Session.Valid, Matches, Fits, Live, Asked, Handled;
      ghost var from := |log|;
      var ok := Call(0, Stimulus(now, timer), [], [], 0);
      if !ok {
        return None;
      }
      var s := m.begin(now, timer, memory);
      ghost var start := s;
      var left := calls;
      NothingAsked(m, start, log[from + 1..]);
      while left > 0
        invariant Valid() && mode == Record && !failed && old(log) <= log && |log| > from
        invariant log[from] == Stimulated(from, now, timer)
        invariant LiveHandler(m, memory, now, timer, old(log), world, calls) == Live(m, s, log, world, left)
        invariant Asked(m, start, log[from + 1..], s)
      {
        LiveStep(m, s, log, world, left);
        var action := m.act(s);
        match action
        case Done(result) =>
          HandlerDone(m, memory, now, timer, log, from, s, result);
          return Some(result);
        case Trap =>
          Fail();
          return None;
        case Ask(kind, args, input, room) =>
          UsedBytes();
          var (output, result) := world(used, room);
          ghost var before := log;
          ok := Call(kind, args, input, output, result);
          if !ok {
            return None;
          }
          AskedNext(m, start, before, log[|before|], from, s);
          s := m.next(s, output, result);
          left := left - 1;
      }
      LiveStep(m, s, log, world, left);
      Fail();
      return None;
    }

    /** Runs a series of handlers live. */
    method RecordRun<S(!new)>(m: Machine<S>, initial: seq<Byte>, stimuli: seq<(nat, bool)>, world: World, calls: nat)
      returns (memory: seq<Byte>)
      requires Valid() && mode == Record && log == [] && !failed && Truthful(world)
      requires forall i :: 0 <= i < |stimuli| ==> stimuli[i].0 < LONG
      modifies this`used, this`cursor, this`sequence, this`position, this`failed, this`log, bytes
      ensures Valid()
      ensures !failed ==> Runs(m, initial, log, memory) && (stimuli != [] ==> log != [])
      ensures LiveRun(m, initial, stimuli, world, calls) == if failed then None else Some((log, memory))
      ensures !failed ==> Driven(m, initial, stimuli, log, memory)
    {
      hide LogBytes, Session.Valid, Handled, Runs, LiveRun, LiveHandler, Driven, Recorded;
      memory := initial;
      var i := 0;
      NothingRecorded(m, initial, stimuli[..0], world, calls);
      while i < |stimuli|
        invariant 0 <= i <= |stimuli| && Valid() && mode == Record && !failed
        invariant Recorded(m, initial, stimuli[..i], world, calls, log, memory)
      {
        ghost var before := log;
        var after := RecordHandler(m, memory, stimuli[i].0, stimuli[i].1, world, calls);
        if after.None? {
          NotRecorded(m, initial, stimuli, i, world, calls, before, memory);
          return;
        }
        RecordedNext(m, initial, stimuli, i, world, calls, before, memory, log, after.value);
        memory := after.value;
        i := i + 1;
      }
      assert stimuli[..i] == stimuli;
      RecordedFacts(m, initial, stimuli, world, calls, log, memory);
    }

    // ---- Playing ----------------------------------------------------------------------------------

    /** Runs a machine against the log until it stops or is refused. */
    method PlayHandler<S(!new)>(m: Machine<S>, start: S) returns (memory: Option<seq<Byte>>)
      requires Valid() && mode == Play && !failed
      modifies this`failed, this`cursor, this`sequence, this`position
      ensures Valid() && old(position) <= position <= |log|
      ensures memory.Some? ==> !failed && Answers(m, start, log[old(position)..position], memory.value)
      ensures memory.None? ==> forall k, x :: old(position) <= k <= |log| ==> !Answers(m, start, log[old(position)..k], x)
    {
      hide LogBytes, Matches, Session.Valid;
      var s := start;
      ghost var from := position;
      PositionInRange();
      assert log[from..from] == [];
      while true
        invariant Valid() && mode == Play && !failed && from <= position <= |log|
        invariant Asked(m, start, log[from..position], s)
        decreases |log| - position
      {
        ghost var at := position;
        AskedSoFar(m, start, log, from, at, s);
        var action := m.act(s);
        match action
        case Done(result) =>
          assert log[at..at] == [];
          return Some(result);
        case Trap =>
          forall k, x | at <= k <= |log|
            ensures !Answers(m, s, log[at..k], x)
          {
            NotAnswered(m, s, log[at..k], x);
          }
          return None;
        case Ask(kind, args, input, room) =>
          PositionInRange();
          MatchIsOk(log, at, kind, args, input, room);
          var decision := Before(kind, args, input, room);
          if !decision.Supplied? {
            forall k, x | at <= k <= |log|
              ensures !Answers(m, s, log[at..k], x)
            {
              assert k > at ==> log[at..k][0] == log[at];
              NotAnswered(m, s, log[at..k], x);
            }
            return None;
          }
          AnswersMore(m, start, log[from..at], log[at], s);
          assert log[from..at + 1] == log[from..at] + [log[at]];
          s := m.next(s, decision.output, decision.result);
      }
    }

    lemma PositionInRange()
      requires Valid() && mode == Play
      ensures position <= |log| && (cursor < used <==> position < |log|) && LogOk(log)
    {
      hide LogBytes, LogOk;
      PlayedAll(log, position, used);
    }

    /** The next record, if it is a stimulus. */
    method NextStimulus() returns (stimulus: Option<(nat, bool)>)
      requires Valid() && mode == Play && position < |log|
      ensures stimulus.Some? <==> log[position].kind == 0 && log[position].args[1] <= 1
      ensures stimulus.Some? ==> stimulus.value == (log[position].args[0], log[position].args[1] == 1)
      ensures stimulus.Some? ==> stimulus.value.0 < LONG
    {
      hide LogBytes;
      PositionInRange();
      var fields := ReadHeader();
      assert fields[3] == fields[3..11][0] && fields[4] == fields[3..11][1];
      if fields[0] != 0 || fields[4] > 1 {
        return None;
      }
      return Some((fields[3], fields[4] == 1));
    }

    /** Plays one handler; if it cannot, no handler's log starts here. */
    method PlayNext<S(!new)>(m: Machine<S>, memory: seq<Byte>) returns (after: Option<seq<Byte>>)
      requires Valid() && mode == Play && !failed && position < |log|
      modifies this`failed, this`cursor, this`sequence, this`position
      ensures Valid() && old(position) <= position <= |log|
      ensures after.Some? ==> !failed && old(position) < position && Handled(m, memory, log[old(position)..position], after.value)
      ensures after.None? ==> failed && forall k, x :: old(position) < k <= |log| ==> !Handled(m, memory, log[old(position)..k], x)
    {
      hide LogBytes, Session.Valid, Answers;
      ghost var from := position;
      var stimulus := NextStimulus();
      assert forall k :: from < k <= |log| ==> log[from..k][0] == log[from];
      assert forall k :: from < k <= |log| ==> log[from..k][1..] == log[from + 1..k];
      if stimulus.None? {
        Fail();
        return None;
      }
      var args := Stimulus(stimulus.value.0, stimulus.value.1);
      var decision := Before(0, args, [], 0);
      if !decision.Supplied? {
        return None;
      }
      after := PlayHandler(m, m.begin(stimulus.value.0, stimulus.value.1, memory));
      if after.None? {
        Fail();
      }
    }

    /**
     * Plays the whole log from the initial memory: succeeds exactly when the log is a complete
     * run of this machine to the expected memory.
     */
    method Verify<S(!new)>(m: Machine<S>, initial: seq<Byte>, expected: seq<Byte>) returns (ok: bool)
      requires Valid() && mode == Record
      modifies this`mode, this`failed, this`cursor, this`sequence, this`position
      ensures Valid() && mode == Record
      ensures ok <==> !old(failed) && log != [] && Runs(m, initial, log, expected)
      ensures ok ==> !failed && cursor == used
    {
      hide LogBytes, Handled, Runs, LogOk;
      NoBytes(log);
      PlayedAll(log, 0, used);
      if failed || used == 0 {
        return false;
      }
      Rewind();
      var memory := initial;
      assert log[0..] == log;
      while cursor < used && !failed
        invariant Valid() && mode == Play && position <= |log|
        invariant !failed ==> forall x :: Runs(m, memory, log[position..], x) <==> Runs(m, initial, log, x)
        invariant failed ==> forall x :: !Runs(m, initial, log, x)
        decreases !failed, |log| - position
      {
        ghost var at := position;
        PositionInRange();
        var after := PlayNext(m, memory);
        NoRun(m, memory, log, at);
        assert forall k :: at < k <= |log| ==> log[at..][..k - at] == log[at..k];
        if after.Some? {
          RunsAfter(m, memory, log[at..], position - at, after.value);
          assert log[at..][position - at..] == log[position..];
          memory := after.value;
        }
      }
      PositionInRange();
      EmptyRun(m, memory, expected);
      assert position == |log| ==> log[position..] == [] && log[..position] == log;
      ok := !failed && memory == expected;
      mode := Record;
    }

  }

  lemma DrivenMore<S(!new)>(m: Machine<S>, initial: seq<Byte>, stimuli: seq<(nat, bool)>, before: seq<Event>,
                            memory: seq<Byte>, log: seq<Event>, after: seq<Byte>)
    requires stimuli != [] && forall i :: 0 <= i < |stimuli| ==> stimuli[i].0 < LONG
    requires before <= log && |before| < |log| && Driven(m, initial, stimuli[..|stimuli| - 1], before, memory)
    requires Handled(m, memory, log[|before|..], after)
    requires log[|before|] == Stimulated(|before|, stimuli[|stimuli| - 1].0, stimuli[|stimuli| - 1].1)
    ensures Driven(m, initial, stimuli, log, after)
  {
    hide Handled;
    assert log[..|before|] == before;
  }

  /** A live run that fails on the way does not get any further. */
  lemma {:induction false} LiveStops<S(!new)>(m: Machine<S>, memory: seq<Byte>, stimuli: seq<(nat, bool)>, world: World, calls: nat, n: nat)
    requires n <= |stimuli| && forall i :: 0 <= i < |stimuli| ==> stimuli[i].0 < LONG
    requires LiveRun(m, memory, stimuli[..n], world, calls).None?
    ensures LiveRun(m, memory, stimuli, world, calls).None?
    decreases |stimuli|
  {
    hide LiveHandler;
    if n == |stimuli| {
      assert stimuli[..n] == stimuli;
    } else {
      var last := |stimuli| - 1;
      assert stimuli[..last][..n] == stimuli[..n];
      LiveStops(m, memory, stimuli[..last], world, calls, n);
    }
  }

  /** The log and the memory are those of the live run of these stimuli. */
  ghost predicate Recorded<S(!new)>(m: Machine<S>, initial: seq<Byte>, stimuli: seq<(nat, bool)>, world: World, calls: nat,
                                    log: seq<Event>, memory: seq<Byte>)
  {
    && (forall i :: 0 <= i < |stimuli| ==> stimuli[i].0 < LONG)
    && LiveRun(m, initial, stimuli, world, calls) == Some((log, memory)) && Driven(m, initial, stimuli, log, memory)
    && Runs(m, initial, log, memory) && (stimuli != [] ==> log != [])
  }

  lemma RecordedFacts<S(!new)>(m: Machine<S>, initial: seq<Byte>, stimuli: seq<(nat, bool)>, world: World, calls: nat,
                               log: seq<Event>, memory: seq<Byte>)
    requires Recorded(m, initial, stimuli, world, calls, log, memory)
    ensures forall i :: 0 <= i < |stimuli| ==> stimuli[i].0 < LONG
    ensures LiveRun(m, initial, stimuli, world, calls) == Some((log, memory)) && Driven(m, initial, stimuli, log, memory)
    ensures Runs(m, initial, log, memory) && (stimuli != [] ==> log != [])
  {
    hide LiveRun, Driven, Runs;
  }

  lemma NothingRecorded<S(!new)>(m: Machine<S>, initial: seq<Byte>, stimuli: seq<(nat, bool)>, world: World, calls: nat)
    requires stimuli == []
    ensures Recorded(m, initial, stimuli, world, calls, [], initial)
  {
  }

  /** One more handler recorded. */
  lemma RecordedNext<S(!new)>(m: Machine<S>, initial: seq<Byte>, stimuli: seq<(nat, bool)>, i: nat, world: World, calls: nat,
                              before: seq<Event>, memory: seq<Byte>, log: seq<Event>, after: seq<Byte>)
    requires i < |stimuli| && forall k :: 0 <= k < |stimuli| ==> stimuli[k].0 < LONG
    requires Recorded(m, initial, stimuli[..i], world, calls, before, memory) && before <= log && |before| < |log|
    requires Handled(m, memory, log[|before|..], after) && log[|before|] == Stimulated(|before|, stimuli[i].0, stimuli[i].1)
    requires LiveHandler(m, memory, stimuli[i].0, stimuli[i].1, before, world, calls) == Some((log, after))
    ensures Recorded(m, initial, stimuli[..i + 1], world, calls, log, after)
  {
    hide Driven, Runs, Handled, LiveHandler;
    assert stimuli[..i + 1][..i] == stimuli[..i];
    DrivenMore(m, initial, stimuli[..i + 1], before, memory, log, after);
    RunsMore(m, initial, before, memory, log[|before|..], after);
    assert before + log[|before|..] == log;
  }

  /** Where one handler cannot be recorded, the whole run cannot. */
  lemma NotRecorded<S(!new)>(m: Machine<S>, initial: seq<Byte>, stimuli: seq<(nat, bool)>, i: nat, world: World, calls: nat,
                             before: seq<Event>, memory: seq<Byte>)
    requires i < |stimuli| && forall k :: 0 <= k < |stimuli| ==> stimuli[k].0 < LONG
    requires Recorded(m, initial, stimuli[..i], world, calls, before, memory)
    requires LiveHandler(m, memory, stimuli[i].0, stimuli[i].1, before, world, calls).None?
    ensures LiveRun(m, initial, stimuli, world, calls).None?
  {
    hide Driven, Runs, Handled, LiveHandler;
    assert stimuli[..i + 1][..i] == stimuli[..i];
    LiveStops(m, initial, stimuli, world, calls, i + 1);
  }

  /** Where a handler stands decides whether it can still answer to the log. */
  lemma AskedSoFar<S(!new)>(m: Machine<S>, start: S, log: seq<Event>, from: nat, at: nat, s: S)
    requires from <= at <= |log| && Asked(m, start, log[from..at], s)
    ensures forall k, x :: at <= k <= |log| ==> (Answers(m, start, log[from..k], x) <==> Answers(m, s, log[at..k], x))
    ensures forall k, x :: from <= k < at ==> !Answers(m, start, log[from..k], x)
  {
    hide Answers, Asked;
    forall k, x | at <= k <= |log|
      ensures Answers(m, start, log[from..k], x) <==> Answers(m, s, log[at..k], x)
    {
      assert log[from..k] == log[from..at] + log[at..k];
      AskedAnswers(m, start, log[from..at], s, log[at..k], x);
    }
    forall k, x | from <= k < at
      ensures !Answers(m, start, log[from..k], x)
    {
      assert log[from..at][..k - from] == log[from..k];
      AskedNotDone(m, start, log[from..at], s, k - from, x);
    }
  }

  /** With nothing left to play, memory is what it is. */
  lemma EmptyRun<S(!new)>(m: Machine<S>, memory: seq<Byte>, after: seq<Byte>)
    ensures Runs(m, memory, [], after) <==> memory == after
  {
  }

  lemma NoRun<S(!new)>(m: Machine<S>, memory: seq<Byte>, log: seq<Event>, at: nat)
    requires at < |log|
    ensures (forall k, x :: at < k <= |log| ==> !Handled(m, memory, log[at..k], x)) ==> forall x :: !Runs(m, memory, log[at..], x)
  {
    hide Handled;
    assert forall k :: 1 <= k <= |log| - at ==> log[at..][..k] == log[at..at + k];
  }

  lemma NotAnswered<S(!new)>(m: Machine<S>, s: S, log: seq<Event>, memory: seq<Byte>)
    requires !m.act(s).Done? && (log == [] || !MatchesAction(log[0], m.act(s)))
    ensures !Answers(m, s, log, memory)
  {
  }

  /** A recorded call was acceptable. */
  lemma MatchIsOk(log: seq<Event>, at: nat, kind: nat, args: Args, input: seq<Byte>, room: nat)
    requires LogOk(log)
    ensures at < |log| && Matches(log[at], kind, args, input, room) ==> CallOk(kind, input, room)
  {
    assert at < |log| ==> EventOk(log[at]);
  }

  lemma NoBytes(log: seq<Event>)
    requires LogOk(log)
    ensures |LogBytes(log[..0])| == 0
  {
  }

  /** A record field by field. */
  lemma RecordAt(bytes: seq<Byte>, at: nat, e: Event)
    requires HoldsAt(bytes, at, e) && EventOk(e)
    ensures |WIDTHS| == 14 && Total(WIDTHS) == HEADER && at + HEADER <= |bytes|
    ensures var f := Unpack(bytes[at..at + HEADER], WIDTHS);
            && |f| == 14 && f[0] == e.kind && f[1] == 0 && f[2] == e.sequence && f[3..11] == e.args
            && f[11] == e.result && f[12] == |e.input| && f[13] == |e.output|
  {
    hide Header, Unpack, Total, Fields;
    HeaderRoundTrip(e);
    FieldsOf(e);
  }

  lemma RunsAfter<S(!new)>(m: Machine<S>, memory: seq<Byte>, log: seq<Event>, k: nat, middle: seq<Byte>)
    requires 1 <= k <= |log| && Handled(m, memory, log[..k], middle)
    ensures forall x :: Runs(m, memory, log, x) <==> Runs(m, middle, log[k..], x)
  {
    hide Runs, Handled;
    forall x
      ensures Runs(m, memory, log, x) <==> Runs(m, middle, log[k..], x)
    {
      RunsRest(m, memory, log, k, middle, x);
    }
  }

  /**
   * Recording succeeds exactly when the live run stops within its bounds, records exactly the
   * given stimuli, and can be played back to the same memory.
   */
  method RecordThenVerify<S(!new)>(m: Machine<S>, initial: seq<Byte>, stimuli: seq<(nat, bool)>, world: World, calls: nat)
    returns (recorded: bool, verified: bool, memory: seq<Byte>, ghost log: seq<Event>)
    requires Truthful(world) && stimuli != [] && forall i :: 0 <= i < |stimuli| ==> stimuli[i].0 < LONG
    ensures recorded <==> LiveRun(m, initial, stimuli, world, calls).Some?
    ensures recorded ==> LiveRun(m, initial, stimuli, world, calls).value == (log, memory)
    ensures recorded ==> Driven(m, initial, stimuli, log, memory)
    ensures recorded <==> verified
  {
    hide Runs, Driven, LiveRun, Session.Valid;
    var session := new Session();
    memory := session.RecordRun(m, initial, stimuli, world, calls);
    recorded, log := !session.failed, session.log;
    verified := session.Verify(m, initial, memory);
  }

  lemma NothingAsked<S(!new)>(m: Machine<S>, start: S, log: seq<Event>)
    requires log == []
    ensures Asked(m, start, log, start)
  {
  }

  /** A live handler step by step. */
  lemma LiveStep<S(!new)>(m: Machine<S>, s: S, log: seq<Event>, world: World, left: nat)
    ensures left == 0 || m.act(s).Trap? ==> Live(m, s, log, world, left) == None
    ensures left > 0 && m.act(s).Done? ==> Live(m, s, log, world, left) == Some((log, m.act(s).memory))
    ensures left > 0 && m.act(s).Ask? ==>
              var a := m.act(s);
              var (output, result) := world(|LogBytes(log)|, a.room);
              var e := Event(a.kind, |log|, a.args, result, a.input, output);
              Live(m, s, log, world, left)
              == if Fits(log, e) then Live(m, m.next(s, output, result), log + [e], world, left - 1) else None
  {
    hide LogBytes, Fits;
  }

  /** A handler that stops has been recorded from its stimulus on. */
  lemma HandlerDone<S(!new)>(m: Machine<S>, memory: seq<Byte>, now: nat, timer: bool, log: seq<Event>, from: nat, s: S, result: seq<Byte>)
    requires now < LONG && from < |log| && log[from] == Stimulated(from, now, timer) && m.act(s) == Done(result)
    requires Asked(m, m.begin(now, timer, memory), log[from + 1..], s)
    ensures Handled(m, memory, log[from..], result)
  {
    hide Asked, Answers;
    var start, asked := m.begin(now, timer, memory), log[from + 1..];
    AskedAnswers(m, start, asked, s, [], result);
    assert asked + [] == asked;
    DoneAnswers(m, s, result);
    assert log[from..][0] == log[from] && log[from..][1..] == asked;
  }

  lemma DoneAnswers<S(!new)>(m: Machine<S>, s: S, result: seq<Byte>)
    requires m.act(s) == Done(result)
    ensures Answers(m, s, [], result)
  {
  }

  /** One more call recorded. */
  lemma AskedNext<S(!new)>(m: Machine<S>, start: S, log: seq<Event>, e: Event, from: nat, s: S)
    requires from < |log| && Asked(m, start, log[from + 1..], s) && m.act(s).Ask?
    requires var a := m.act(s); |e.output| == a.room && e.kind == a.kind && e.args == a.args && e.input == a.input
    ensures Asked(m, start, (log + [e])[from + 1..], m.next(s, e.output, e.result))
  {
    hide Asked;
    AnswersMore(m, start, log[from + 1..], e, s);
    assert (log + [e])[from + 1..] == log[from + 1..] + [e];
  }

  lemma PlayedAll(log: seq<Event>, position: nat, used: nat)
    requires LogOk(log) && position <= |log| && used == |LogBytes(log)|
    ensures position < |log| <==> |LogBytes(log[..position])| + HEADER <= used
    ensures |LogBytes(log[..position])| <= used && (position == |log| ==> |LogBytes(log[..position])| == used)
  {
    if position < |log| {
      LogSplit(log, position);
    } else {
      assert log[..position] == log;
    }
  }

  lemma FieldsOf(e: Event)
    ensures var f := Fields(e);
            && |f| == 14 && f[0] == e.kind && f[1] == 0 && f[2] == e.sequence && f[3..11] == e.args
            && f[11] == e.result && f[12] == |e.input| && f[13] == |e.output|
  {
  }

  lemma BytesNext(log: seq<Event>, e: Event)
    ensures LogBytes(log + [e]) == LogBytes(log) + Header(e) + e.input + e.output
  {
    hide Header;
    assert (log + [e])[..|log|] == log && (log + [e])[|log|] == e;
  }

  lemma LogNext(log: seq<Event>, e: Event)
    requires LogOk(log) && EventOk(e) && e.sequence == |log|
    ensures LogOk(log + [e]) && LogBytes(log + [e]) == LogBytes(log) + Header(e) + e.input + e.output
  {
    hide Header, LogBytes;
    BytesNext(log, e);
  }
}
