/** comlogger's read loop, flushing, recording, replay and watchdog. */
module ComLogger {
  import opened Wrappers
  import Text
  import opened OutputBuffer

  // ---- what should reach the file

  /** The stream as the file should show it. */
  function Shown(chunks: seq<Chunk>, timestamp: bool): string {
    if timestamp then Assembled(chunks, true) else Bytes(chunks)
  }

  lemma {:induction false} AssembledMore(chunks: seq<Chunk>, c: Chunk, atStart: bool)
    ensures Assembled(chunks + [c], atStart)
              == Assembled(chunks, atStart) + Stamped(c.data, c.stamp, AssembledEnd(chunks, atStart))
    ensures AssembledEnd(chunks + [c], atStart) == EndsLine(c.data, AssembledEnd(chunks, atStart))
  {
    hide Stamped, EndsLine;
    if chunks == [] {
      assert [c][1..] == [];
      assert [] + [c] == [c];
    } else {
      assert (chunks + [c])[1..] == chunks[1..] + [c];
      AssembledMore(chunks[1..], c, EndsLine(chunks[0].data, atStart));
      Associate(Stamped(chunks[0].data, chunks[0].stamp, atStart),
                Assembled(chunks[1..], EndsLine(chunks[0].data, atStart)),
                Stamped(c.data, c.stamp, AssembledEnd(chunks, atStart)));
    }
  }

  lemma {:induction false} BytesMore(chunks: seq<Chunk>, c: Chunk)
    ensures Bytes(chunks + [c]) == Bytes(chunks) + c.data
  {
    if chunks == [] {
      assert [c][1..] == [];
      assert [] + [c] == [c];
    } else {
      assert (chunks + [c])[1..] == chunks[1..] + [c];
      BytesMore(chunks[1..], c);
      Associate(chunks[0].data, Bytes(chunks[1..]), c.data);
    }
  }

  // ---- the environment of the read loop

  datatype Read = Failed | Got(data: string)

  /** What becomes of an attempt to write the buffer out; a failed one writes nothing. */
  datatype Attempt = OpenFails | WriteFails | Written

  /** One turn of the loop, as the outside world decides it. */
  datatype Turn = Turn(
    stop: bool, kill: bool, timeout: bool,
    read: Read, offset: nat, stamp: string,
    reopens: bool, flushDue: bool, flush: Attempt)

  /** A chunk as read, and the milliseconds since recording began. */
  datatype Arrival = Arrival(chunk: Chunk, offset: nat)

  /** What the loop reads from turn `i` on before it ends, unless memory runs out. */
  function Heard(turns: seq<Turn>, i: nat, portOpen: bool, reconnect: bool): seq<Arrival>
    requires i <= |turns|
    decreases |turns| - i
  {
    if i == |turns| || turns[i].stop || turns[i].kill || turns[i].timeout then []
    else if portOpen && turns[i].read.Got? then
      (if turns[i].read.data != "" then [Arrival(Chunk(turns[i].read.data, turns[i].stamp), turns[i].offset)] else [])
      + Heard(turns, i + 1, true, reconnect)
    else if !reconnect then []
    else Heard(turns, i + 1, turns[i].reopens, reconnect)
  }

  /** The exit code, unless memory runs out. */
  function ExitCode(turns: seq<Turn>, i: nat, portOpen: bool, reconnect: bool): int
    requires i <= |turns|
    decreases |turns| - i
  {
    if i == |turns| || turns[i].stop || turns[i].kill then 0
    else if turns[i].timeout then 6
    else if portOpen && turns[i].read.Got? then ExitCode(turns, i + 1, true, reconnect)
    else if !reconnect then 5
    else ExitCode(turns, i + 1, turns[i].reopens, reconnect)
  }

  /** What the port delivers, turn by turn. */
  function Delivered(turns: seq<Turn>, i: nat): string
    requires i <= |turns|
    decreases |turns| - i
  {
    if i == |turns| then ""
    else (if turns[i].read.Got? then turns[i].read.data else "") + Delivered(turns, i + 1)
  }

  /** While nobody stops the loop and the port holds, everything delivered is heard. */
  lemma {:induction false} HearsAll(turns: seq<Turn>, i: nat, reconnect: bool)
    requires i <= |turns|
    requires forall k :: i <= k < |turns| ==>
              !turns[k].stop && !turns[k].kill && !turns[k].timeout && turns[k].read.Got?
    ensures Bytes(Chunks(Heard(turns, i, true, reconnect))) == Delivered(turns, i)
    ensures ExitCode(turns, i, true, reconnect) == 0
    decreases |turns| - i
  {
    if i < |turns| {
      HearsAll(turns, i + 1, reconnect);
      var later := Heard(turns, i + 1, true, reconnect);
      var turn := turns[i];
      if turn.read.data != "" {
        var a := Arrival(Chunk(turn.read.data, turn.stamp), turn.offset);
        assert Chunks([a] + later) == [a.chunk] + Chunks(later);
        assert ([a.chunk] + Chunks(later))[1..] == Chunks(later);
      } else {
        assert [] + later == later && "" + Delivered(turns, i + 1) == Delivered(turns, i + 1);
      }
    }
  }

  /** Turn `k` is the first in which somebody ends the loop. */
  predicate EndsFirst(turns: seq<Turn>, i: nat, k: nat) {
    && i <= k < |turns| && (turns[k].stop || turns[k].kill || turns[k].timeout)
    && forall j :: i <= j < k ==> !turns[j].stop && !turns[j].kill && !turns[j].timeout
  }

  /** With reconnection the exit code is 6 exactly when the timeout is what ends the loop, and otherwise 0. */
  lemma {:induction false} TimeoutIff(turns: seq<Turn>, i: nat, portOpen: bool)
    requires i <= |turns|
    ensures ExitCode(turns, i, portOpen, true) == 6
       <==> exists k: nat :: EndsFirst(turns, i, k) && !turns[k].stop && !turns[k].kill
    ensures ExitCode(turns, i, portOpen, true) in {0, 6}
    decreases |turns| - i
  {
    if i < |turns| {
      if turns[i].stop || turns[i].kill || turns[i].timeout {
        assert EndsFirst(turns, i, i);
      } else {
        TimeoutIff(turns, i + 1, if portOpen && turns[i].read.Got? then true else turns[i].reopens);
        assert forall k: nat :: EndsFirst(turns, i, k) <==> EndsFirst(turns, i + 1, k);
      }
    }
  }

  /** Without reconnection a lost port ends the loop with 5, unless somebody ended it first. */
  lemma {:induction false} LostPortIff(turns: seq<Turn>, i: nat)
    requires i <= |turns|
    ensures ExitCode(turns, i, true, false) == 5
       <==> exists k :: i <= k < |turns| && turns[k].read.Failed?
                        && forall j :: i <= j <= k ==> !turns[j].stop && !turns[j].kill && !turns[j].timeout
    decreases |turns| - i
  {
    if i < |turns| && !turns[i].stop && !turns[i].kill && !turns[i].timeout && turns[i].read.Got? {
      LostPortIff(turns, i + 1);
    }
  }

  function Chunks(heard: seq<Arrival>): seq<Chunk> { seq(|heard|, i requires 0 <= i < |heard| => heard[i].chunk) }

  /** One line of the timing file. */
  datatype Timing = Timing(offset: nat, length: nat)

  function Times(heard: seq<Arrival>): seq<Timing> {
    seq(|heard|, i requires 0 <= i < |heard| => Timing(heard[i].offset, |heard[i].chunk.data|))
  }

  // ---- replay

  /** One line of the timing file as written, and as `sscanf` reads it back. */
  function ShowTiming(t: Timing): string { Text.ShowNat(t.offset) + " " + Text.ShowNat(t.length) }

  /** White space before a number is skipped. */
  function SkipSpace(s: string): string {
    if s != "" && Text.IsCSpace(s[0]) then SkipSpace(s[1..]) else s
  }

  /** `"%lu %lu"` on unsigned decimals. */
  function TimingOf(line: string): Option<Timing> {
    var s := SkipSpace(line);
    var n := Text.Digits(s);
    var u := SkipSpace(s[n..]);
    var m := Text.Digits(u);
    if n > 0 && m > 0 then Some(Timing(Text.ReadNat(s[..n]), Text.ReadNat(u[..m]))) else None
  }

  lemma TimingReadBack(t: Timing)
    ensures TimingOf(ShowTiming(t)) == Some(t)
  {
    hide Text.Digits;
    var a, b := Text.ShowNat(t.offset), Text.ShowNat(t.length);
    var s := ShowTiming(t);
    assert s == a + " " + b && s[0] == a[0];
    assert Text.Digits(s) == |a| by {
      assert forall i :: 0 <= i < |a| ==> s[i] == a[i];
      assert s[|a|] == ' ';
    }
    assert s[..|a|] == a && s[|a|..] == " " + b;
    assert SkipSpace(" " + b) == b by { assert (" " + b)[1..] == b; }
    assert Text.Digits(b) == |b| && b[..|b|] == b;
  }

  predicate CBlank(s: string) { forall i :: 0 <= i < |s| ==> Text.IsCSpace(s[i]) }

  lemma {:induction false} SkipPad(pad: string, s: string)
    requires CBlank(pad) && (s == "" || !Text.IsCSpace(s[0]))
    ensures SkipSpace(pad + s) == s
  {
    if pad == "" {
      assert pad + s == s;
    } else {
      assert (pad + s)[1..] == pad[1..] + s;
      SkipPad(pad[1..], s);
    }
  }

  lemma DigitsThen(num: string, s: string)
    requires Text.AllDigits(num) && (s == "" || !Text.IsDigit(s[0]))
    ensures Text.Digits(num + s) == |num| && (num + s)[..|num|] == num && (num + s)[|num|..] == s
  {
    assert forall i :: 0 <= i < |num| ==> (num + s)[i] == num[i];
    assert s != "" ==> (num + s)[|num|] == s[0];
  }

  /** Two numbers with white space before and between them, whatever follows. */
  lemma TimingMeans(pad: string, num: string, gap: string, num2: string, rest: string)
    requires CBlank(pad) && CBlank(gap) && gap != "" && Text.AllDigits(num) && Text.AllDigits(num2)
    requires rest == "" || !Text.IsDigit(rest[0])
    ensures TimingOf(pad + (num + (gap + (num2 + rest)))) == Some(Timing(Text.ReadNat(num), Text.ReadNat(num2)))
  {
    hide Text.Digits, Text.ReadNat, SkipSpace;
    var u := num2 + rest;
    var s := num + (gap + u);
    assert s[0] == num[0] && u[0] == num2[0] && (gap + u)[0] == gap[0];
    SkipPad(pad, s);
    DigitsThen(num, gap + u);
    SkipPad(gap, u);
    DigitsThen(num2, rest);
  }

  function Timings(lines: seq<string>): seq<Timing> {
    if lines == [] then []
    else (match TimingOf(lines[0]) case Some(t) => [t] case None => []) + Timings(lines[1..])
  }

  /** The recording files hold as many bytes as the timing lines ask for. */
  predicate Enough(raw: string, lines: seq<string>)
    decreases |lines|
  {
    if lines == [] then true
    else
      match TimingOf(lines[0])
      case None => Enough(raw, lines[1..])
      case Some(t) => t.length <= |raw| && Enough(raw[t.length..], lines[1..])
  }

  /** The chunks an uninterrupted replay feeds on, from line `i`. */
  function Replayed(raw: string, lines: seq<string>, stamps: seq<string>, i: nat): seq<Arrival>
    requires i <= |lines| == |stamps|
    decreases |lines| - i
  {
    if i == |lines| then []
    else
      match TimingOf(lines[i])
      case None => Replayed(raw, lines, stamps, i + 1)
      case Some(t) =>
        if t.length > |raw| then []
        else [Arrival(Chunk(raw[..t.length], stamps[i]), t.offset)] + Replayed(raw[t.length..], lines, stamps, i + 1)
  }

  /** What line `i` of the timing file makes of the replay, and of what it needs. */
  lemma ReplayedStep(raw: string, lines: seq<string>, stamps: seq<string>, i: nat)
    requires i < |lines| == |stamps|
    ensures Enough(raw, lines[i..]) ==>
              match TimingOf(lines[i])
              case None => Enough(raw, lines[i + 1..])
              case Some(t) => t.length <= |raw| && Enough(raw[t.length..], lines[i + 1..])
    ensures Replayed(raw, lines, stamps, i)
         == match TimingOf(lines[i])
            case None => Replayed(raw, lines, stamps, i + 1)
            case Some(t) =>
              if t.length > |raw| then []
              else
                [Arrival(Chunk(raw[..t.length], stamps[i]), t.offset)]
                + Replayed(raw[t.length..], lines, stamps, i + 1)
  {
    assert lines[i..][1..] == lines[i + 1..] && lines[i..][0] == lines[i];
  }

  lemma WaitsStep(lines: seq<string>, i: nat, prev: nat)
    requires i < |lines|
    ensures Waits(Timings(lines[i..]), prev)
         == match TimingOf(lines[i])
            case None => Waits(Timings(lines[i + 1..]), prev)
            case Some(t) => (if t.offset > prev then t.offset - prev else 0) + Waits(Timings(lines[i + 1..]), t.offset)
  {
    var later := Timings(lines[i + 1..]);
    assert lines[i..][1..] == lines[i + 1..] && lines[i..][0] == lines[i];
    assert [] + later == later;
    var t := TimingOf(lines[i]);
    if t.Some? {
      assert ([t.value] + later)[1..] == later;
    }
  }

  lemma ReplayedEnd(raw: string, lines: seq<string>, stamps: seq<string>, prev: nat)
    requires |lines| == |stamps|
    ensures Replayed(raw, lines, stamps, |lines|) == [] && Waits(Timings(lines[|lines|..]), prev) == 0
  {}

  /** What the replay sleeps in all. */
  function Waits(times: seq<Timing>, prev: nat): nat {
    if times == [] then 0
    else (if times[0].offset > prev then times[0].offset - prev else 0) + Waits(times[1..], times[0].offset)
  }

  predicate Rising(times: seq<Timing>, prev: nat) {
    times != [] ==> prev <= times[0].offset && Rising(times[1..], times[0].offset)
  }

  /** The pauses add up to the last offset exactly when the offsets never fall. */
  lemma {:induction false} WaitsIff(times: seq<Timing>, prev: nat)
    requires times != []
    ensures Waits(times, prev) >= times[|times| - 1].offset - prev
    ensures Waits(times, prev) == times[|times| - 1].offset - prev <==> Rising(times, prev)
  {
    if |times| > 1 {
      WaitsIff(times[1..], times[0].offset);
      assert times[1..][|times| - 2] == times[|times| - 1];
    } else {
      assert times[1..] == [];
    }
  }

  function TimingLines(heard: seq<Arrival>): seq<string> {
    if heard == [] then [] else [ShowTiming(Timing(heard[0].offset, |heard[0].chunk.data|))] + TimingLines(heard[1..])
  }

  /** Replaying a recording gives back the recorded bytes, chunk by chunk, at the recorded offsets. */
  lemma {:induction false} ReplayGivesBack(heard: seq<Arrival>, lines: seq<string>, stamps: seq<string>, i: nat,
      tail: string)
    requires i + |heard| == |lines| == |stamps|
    requires lines[i..] == TimingLines(heard)
    ensures var back := Replayed(Bytes(Chunks(heard)) + tail, lines, stamps, i);
            && |back| == |heard|
            && forall k :: 0 <= k < |back| ==>
                back[k].chunk.data == heard[k].chunk.data && back[k].offset == heard[k].offset
    decreases |heard|
  {
    hide TimingOf, ShowTiming;
    if heard != [] {
      var t := Timing(heard[0].offset, |heard[0].chunk.data|);
      var raw := Bytes(Chunks(heard)) + tail;
      TimingReadBack(t);
      assert lines[i] == lines[i..][0];
      assert Chunks(heard)[1..] == Chunks(heard[1..]);
      assert raw[..t.length] == heard[0].chunk.data;
      assert raw[t.length..] == Bytes(Chunks(heard[1..])) + tail;
      assert lines[i + 1..] == lines[i..][1..];
      ReplayGivesBack(heard[1..], lines, stamps, i + 1, tail);
    }
  }

  // ---- pauses

  /** The first poll that sees a stop request, the timeout or the kill file; past the end of the list none does. */
  function FirstHalt(polls: seq<bool>): (k: Option<nat>)
    ensures k.Some? ==> k.value < |polls| && polls[k.value] && forall j :: 0 <= j < k.value ==> !polls[j]
    ensures k.None? ==> forall j :: 0 <= j < |polls| ==> !polls[j]
  {
    if polls == [] then None
    else if polls[0] then Some(0)
    else
      match FirstHalt(polls[1..])
      case None => None
      case Some(k) => Some(k + 1)
  }

  /** Sleeps of at most 100 ms that `ms` takes; a poll precedes each and one follows the last. */
  function Naps(ms: nat): nat { (ms + 99) / 100 }

  /** Whether a pause runs to its end, and how long it lasts. */
  function Pause(ms: nat, polls: seq<bool>): (bool, nat) {
    match FirstHalt(polls)
    case None => (true, ms)
    case Some(k) => if k > Naps(ms) then (true, ms) else (false, if 100 * k < ms then 100 * k else ms)
  }

  /** `replay_sleep` */
  method ReplaySleep(ms: nat, polls: seq<bool>) returns (completed: bool, slept: nat)
    ensures (completed, slept) == Pause(ms, polls)
    ensures completed <==> forall k :: 0 <= k <= Naps(ms) && k < |polls| ==> !polls[k]
  {
    var left, k := ms, 0;
    slept := 0;
    while left > 0
      invariant slept + left == ms && (left > 0 ==> slept == 100 * k) && k <= Naps(ms)
      invariant left == 0 ==> k == Naps(ms)
      invariant forall j :: 0 <= j < k && j < |polls| ==> !polls[j]
    {
      var step := if left > 100 then 100 else left;
      if k < |polls| && polls[k] { return false, slept; }
      slept := slept + step;
      left := left - step;
      k := k + 1;
    }
    return !(k < |polls| && polls[k]), slept;
  }

  // ---- a whole replay

  /**
    * What the outside world does around one line of the timing file; `late`: the timeout is up when the pause was cut.
    */
  datatype Beat = Beat(timeout: bool, polls: seq<bool>, late: bool, flushDue: bool, flush: Attempt)

  /** How far a replay gets: chunks fed, milliseconds slept, exit code, and whether all lines were played. */
  datatype Played = Played(fed: nat, slept: nat, rc: int, whole: bool)

  function Gap(offset: nat, prev: nat): nat { if offset > prev then offset - prev else 0 }

  /** The replay from line `i` on, unless memory runs out. */
  function PlayedFrom(raw: string, lines: seq<string>, beats: seq<Beat>, i: nat, prev: nat): Played
    requires i <= |lines| == |beats|
    decreases |lines| - i
  {
    if i == |lines| then Played(0, 0, 0, true)
    else if beats[i].timeout then Played(0, 0, 6, false)
    else
      match TimingOf(lines[i])
      case None => PlayedFrom(raw, lines, beats, i + 1, prev)
      case Some(t) =>
        var (completed, time) := Pause(Gap(t.offset, prev), beats[i].polls);
        if !completed then Played(0, time, if beats[i].late then 6 else 0, false)
        else if t.length > |raw| then Played(0, time, 0, false)
        else
          var later := PlayedFrom(raw[t.length..], lines, beats, i + 1, t.offset);
          later.(fed := later.fed + 1, slept := time + later.slept)
  }

  /** A replay that has fed `heard` and slept `slept` before it goes on as `rest`. */
  function Later(heard: seq<Arrival>, slept: nat, rest: Played): Played {
    rest.(fed := |heard| + rest.fed, slept := slept + rest.slept)
  }

  lemma Slice(s: string, at: nat, n: nat)
    requires at + n <= |s|
    ensures s[at..][..n] == s[at..at + n] && s[at..][n..] == s[at + n..]
  {}

  lemma Regroup(heard: seq<Arrival>, a: Arrival, later: seq<Arrival>)
    ensures heard + ([a] + later) == (heard + [a]) + later
  {}

  lemma Fed(heard: seq<Arrival>, rest: seq<Arrival>)
    ensures (heard + rest)[..|heard|] == heard
  {}

  lemma PlayedStep(raw: string, lines: seq<string>, beats: seq<Beat>, i: nat, prev: nat)
    requires i < |lines| == |beats|
    ensures PlayedFrom(raw, lines, beats, i, prev)
         == if beats[i].timeout then Played(0, 0, 6, false)
            else
              match TimingOf(lines[i])
              case None => PlayedFrom(raw, lines, beats, i + 1, prev)
              case Some(t) =>
                var pause := Pause(Gap(t.offset, prev), beats[i].polls);
                if !pause.0 then Played(0, pause.1, if beats[i].late then 6 else 0, false)
                else if t.length > |raw| then Played(0, pause.1, 0, false)
                else
                  var later := PlayedFrom(raw[t.length..], lines, beats, i + 1, t.offset);
                  later.(fed := later.fed + 1, slept := pause.1 + later.slept)
  {
    hide TimingOf, Pause;
  }

  lemma PlayedEnd(raw: string, lines: seq<string>, beats: seq<Beat>, prev: nat)
    requires |lines| == |beats|
    ensures PlayedFrom(raw, lines, beats, |lines|, prev) == Played(0, 0, 0, true)
  {}

  /** A replay feeds a prefix of what the recording holds; a whole one feeds all of it and sleeps all its waits. */
  lemma {:induction false} PlayedIsPrefix(
    raw: string, lines: seq<string>, stamps: seq<string>, beats: seq<Beat>, i: nat, prev: nat)
    requires i <= |lines| == |beats| == |stamps|
    ensures var p := PlayedFrom(raw, lines, beats, i, prev);
            var r := Replayed(raw, lines, stamps, i);
            && p.fed <= |r| && p.slept <= Waits(Timings(lines[i..]), prev)
            && (p.whole ==> p.rc == 0 && p.fed == |r| && p.slept == Waits(Timings(lines[i..]), prev))
    decreases |lines| - i
  {
    hide TimingOf, Waits, Timings, Enough, FirstHalt;
    if i < |lines| {
      WaitsStep(lines, i, prev);
      var t := TimingOf(lines[i]);
      if t.None? {
        PlayedIsPrefix(raw, lines, stamps, beats, i + 1, prev);
      } else if t.value.length <= |raw| {
        PlayedIsPrefix(raw[t.value.length..], lines, stamps, beats, i + 1, t.value.offset);
      }
    } else {
      ReplayedEnd(raw, lines, stamps, prev);
    }
  }

  /** Nothing interrupts the replay. */
  predicate Quiet(beats: seq<Beat>) {
    forall i :: 0 <= i < |beats| ==> !beats[i].timeout && FirstHalt(beats[i].polls).None?
  }

  /** Undisturbed, a replay is whole exactly when the recording holds the bytes its timing lines ask for. */
  lemma {:induction false} QuietWholeIff(raw: string, lines: seq<string>, beats: seq<Beat>, i: nat, prev: nat)
    requires i <= |lines| == |beats| && Quiet(beats)
    ensures PlayedFrom(raw, lines, beats, i, prev).whole <==> Enough(raw, lines[i..])
    decreases |lines| - i
  {
    hide TimingOf, FirstHalt;
    if i < |lines| {
      assert lines[i..][1..] == lines[i + 1..] && lines[i..][0] == lines[i];
      var t := TimingOf(lines[i]);
      if t.None? {
        QuietWholeIff(raw, lines, beats, i + 1, prev);
      } else if t.value.length <= |raw| {
        QuietWholeIff(raw[t.value.length..], lines, beats, i + 1, t.value.offset);
      }
    }
  }

  // ---- replaying a recording

  /** A recording holds the bytes its timing lines ask for. */
  lemma {:induction false} RecordingEnough(heard: seq<Arrival>, tail: string)
    ensures Enough(Bytes(Chunks(heard)) + tail, TimingLines(heard))
  {
    hide TimingOf, ShowTiming;
    if heard != [] {
      var t := Timing(heard[0].offset, |heard[0].chunk.data|);
      var raw := Bytes(Chunks(heard)) + tail;
      TimingReadBack(t);
      assert Chunks(heard)[1..] == Chunks(heard[1..]);
      assert raw[t.length..] == Bytes(Chunks(heard[1..])) + tail;
      RecordingEnough(heard[1..], tail);
    }
  }

  lemma {:induction false} RecordingTimes(heard: seq<Arrival>)
    ensures Timings(TimingLines(heard)) == Times(heard) && |TimingLines(heard)| == |heard|
  {
    hide TimingOf, ShowTiming;
    if heard != [] {
      TimingReadBack(Timing(heard[0].offset, |heard[0].chunk.data|));
      RecordingTimes(heard[1..]);
      assert Times(heard)[1..] == Times(heard[1..]);
    }
  }

  lemma {:induction false} SameBytes(a: seq<Arrival>, b: seq<Arrival>)
    requires |a| == |b| && forall k :: 0 <= k < |a| ==> a[k].chunk.data == b[k].chunk.data
    ensures Bytes(Chunks(a)) == Bytes(Chunks(b))
  {
    if a != [] {
      SameBytes(a[1..], b[1..]);
      assert Chunks(a)[1..] == Chunks(a[1..]) && Chunks(b)[1..] == Chunks(b[1..]);
    }
  }

  predicate OffsetsRise(heard: seq<Arrival>) { Rising(Times(heard), 0) }

  /**
    * An undisturbed replay of a recording gives back its bytes, and sleeps its last offset exactly when the offsets
    * never fall.
    */
  lemma RecordingPlaysBack(heard: seq<Arrival>, stamps: seq<string>, beats: seq<Beat>)
    requires |heard| == |stamps| == |beats| && Quiet(beats)
    ensures |TimingLines(heard)| == |heard|
    ensures var p := PlayedFrom(Bytes(Chunks(heard)), TimingLines(heard), beats, 0, 0);
            var r := Replayed(Bytes(Chunks(heard)), TimingLines(heard), stamps, 0);
            && p.rc == 0 && p.fed == |r| && Bytes(Chunks(r)) == Bytes(Chunks(heard))
            && (heard != [] ==> (p.slept == heard[|heard| - 1].offset <==> OffsetsRise(heard)))
  {
    hide TimingLines, Replayed, Enough, PlayedFrom, Waits, Timings, Quiet, Bytes, Chunks, Rising;
    var raw, lines := Bytes(Chunks(heard)), TimingLines(heard);
    assert raw + "" == raw;
    RecordingTimes(heard);
    assert lines[0..] == lines;
    RecordingEnough(heard, "");
    QuietWholeIff(raw, lines, beats, 0, 0);
    PlayedIsPrefix(raw, lines, stamps, beats, 0, 0);
    ReplayGivesBack(heard, lines, stamps, 0, "");
    SameBytes(Replayed(raw, lines, stamps, 0), heard);
    if heard != [] {
      WaitsIff(Times(heard), 0);
    }
  }

  // ---- the watchdog

  const WORD := 0x1_0000_0000

  /** `timeout_hit`: the signed difference of two 32-bit tick counts. */
  function TimeoutHit(now: nat, deadline: nat): bool { (now - deadline) % WORD < WORD / 2 }

  /** `timeout` milliseconds after `start`, `elapsed` milliseconds into the run, on a clock that wraps. */
  function Fires(start: nat, timeout: nat, elapsed: nat): bool {
    TimeoutHit((start + elapsed) % WORD, (start + timeout) % WORD)
  }

  lemma FiresWithin(start: nat, timeout: nat, elapsed: nat)
    requires -WORD / 2 <= elapsed - timeout < WORD / 2
    ensures Fires(start, timeout, elapsed) <==> elapsed >= timeout
  {
    var d := elapsed - timeout;
    assert ((start + elapsed) % WORD - (start + timeout) % WORD) % WORD == d % WORD by {
      ModDifference(start + elapsed, start + timeout);
    }
  }

  lemma ModDifference(a: nat, b: nat)
    ensures (a % WORD - b % WORD) % WORD == (a - b) % WORD
  {
    var q, r := a / WORD, b / WORD;
    assert a - b == (a % WORD - b % WORD) + WORD * (q - r);
    ModShift(a % WORD - b % WORD, q - r);
  }

  lemma ModShift(x: int, k: int)
    ensures (x + WORD * k) % WORD == x % WORD
  {
    var n := x / WORD;
    assert x + WORD * k == WORD * (n + k) + x % WORD;
  }

  /** The watchdog stays quiet until its time exactly when the timeout is at most half the clock's range. */
  lemma QuietUntilDueIff(start: nat, timeout: nat)
    requires timeout > 0
    ensures (forall elapsed: nat :: elapsed < timeout ==> !Fires(start, timeout, elapsed)) <==> timeout <= WORD / 2
  {
    if timeout <= WORD / 2 {
      forall elapsed: nat | elapsed < timeout ensures !Fires(start, timeout, elapsed) {
        FiresWithin(start, timeout, elapsed);
      }
    } else {
      // half a range and one tick too early
      var elapsed := timeout - WORD / 2 - 1;
      ModDifference(start + elapsed, start + timeout);
      assert (-(WORD / 2) - 1) % WORD == WORD / 2 - 1;
      assert Fires(start, timeout, elapsed);
    }
  }

  class Logger {
    const timestamp: bool
    const reconnect: bool
    const record: bool
    const ob: OBuf
    /** The contents of the output file and of the two recording files. */
    var file: string
    var raw: string
    var timing: seq<Timing>

    ghost predicate Valid()
      reads this, ob
    {
      ob.Valid()
    }

    /** Everything that came in so far is in the file or in the buffer. */
    ghost function Kept(): string
      requires Valid()
      reads this, ob, ob.buf
    {
      file + ob.Contents()
    }

    constructor (timestamp: bool, reconnect: bool, record: bool, file: string, grants: nat -> bool)
      ensures Valid() && ob.asked == 0 && ob.grants == grants && fresh(ob) && fresh(ob.buf) && ob.Contents() == ""
                && ob.atLineStart
      ensures this.file == file && this.timestamp == timestamp && this.reconnect == reconnect && this.record == record
      ensures raw == "" && timing == []
    {
      this.timestamp, this.reconnect, this.record, this.file := timestamp, reconnect, record, file;
      raw, timing := "", [];
      ob := new OBuf(grants);
    }

    /** `flush_to_file`: moves the buffer into the file, or keeps it for the next attempt. */
    method FlushToFile(attempt: Attempt) returns (ok: bool)
      requires Valid()
      modifies this`file, ob`len
      ensures Valid() && Kept() == old(Kept())
      ensures ok <==> attempt == Written || old(ob.Contents()) == ""
      ensures if ok then ob.Contents() == "" else file == old(file)
    {
      if ob.len == 0 { return true; }
      if attempt == OpenFails { return false; }
      if attempt == WriteFails { return false; }
      file := file + ob.Contents();
      ob.len := 0;
      return true;
    }

    /** The state after hearing `heard`, from given files: nothing lost, nothing repeated. */
    ghost predicate InStep(heard: seq<Arrival>, file0: string, raw0: string, timing0: seq<Timing>)
      reads this, ob, ob.buf
    {
      && Valid()
      && Kept() == file0 + Shown(Chunks(heard), timestamp)
      && (timestamp ==> ob.atLineStart == AssembledEnd(Chunks(heard), true))
      && raw == raw0 + (if record then Bytes(Chunks(heard)) else "")
      && timing == timing0 + (if record then Times(heard) else [])
    }

    /** One chunk off the wire: recorded, then appended. */
    method TakeChunk(a: Arrival, ghost heard: seq<Arrival>, ghost file0: string, ghost raw0: string,
        ghost timing0: seq<Timing>)
      returns (ok: bool)
      requires InStep(heard, file0, raw0, timing0)
      modifies this`raw, this`timing, ob, ob.buf
      ensures Valid() && (ob.buf == old(ob.buf) || fresh(ob.buf))
      ensures old(ob.asked) <= ob.asked && (ok <==> ob.Granted(old(ob.asked), ob.asked))
      ensures ok ==> InStep(heard + [a], file0, raw0, timing0)
    {
      hide Stamped, Assembled, AssembledEnd, Bytes, EndsLine;
      var c := a.chunk;
      if record {
        raw := raw + c.data;
        timing := timing + [Timing(a.offset, |c.data|)];
      }
      assert Chunks(heard + [a]) == Chunks(heard) + [c];
      assert Times(heard + [a]) == Times(heard) + [Timing(a.offset, |c.data|)];
      AssembledMore(Chunks(heard), c, true);
      BytesMore(Chunks(heard), c);
      Associate(raw0, Bytes(Chunks(heard)), c.data);
      ghost var before := ob.Contents();
      ok := ob.AppendChunk(c.data, if timestamp then Some(c.stamp) else None);
      if ok {
        ghost var piece := if timestamp then Stamped(c.data, c.stamp, AssembledEnd(Chunks(heard), true)) else c.data;
        Associate(file, before, piece);
        Associate(file0, Shown(Chunks(heard), timestamp), piece);
      }
    }

    /** A flush in the middle of a run. */
    method Flush(attempt: Attempt, ghost heard: seq<Arrival>, ghost file0: string, ghost raw0: string,
        ghost timing0: seq<Timing>)
      requires InStep(heard, file0, raw0, timing0)
      modifies this`file, ob`len
      ensures Valid() && InStep(heard, file0, raw0, timing0)
      ensures attempt == Written ==> ob.Contents() == ""
    {
      hide Shown, AssembledEnd, Bytes;
      var _ := FlushToFile(attempt);
    }

    /** The live capture loop. `lost` is what the buffer still held when it was freed. */
    method Capture(turns: seq<Turn>, last: Attempt) returns (rc: int, lost: string)
      requires Valid() && ob.Contents() == "" && ob.atLineStart
      modifies this, ob, ob.buf
      ensures old(ob.asked) <= ob.asked && (rc == 4 <==> !ob.Granted(old(ob.asked), ob.asked))
      ensures rc != 4 ==> rc == ExitCode(turns, 0, true, reconnect)
      ensures last == Written && rc != 4 ==> lost == ""
      ensures rc != 4 ==>
                var heard := Heard(turns, 0, true, reconnect);
                && file + lost == old(file) + Shown(Chunks(heard), timestamp)
                && (record ==> raw == old(raw) + Bytes(Chunks(heard)) && timing == old(timing) + Times(heard))
    {
      hide Shown, Bytes, AssembledEnd, InStep, Chunks, Times, OBuf.Granted;
      rc := 0;
      ghost var first := ob.asked;
      ob.GrantedJoin(first, first, first);
      var portOpen, i := true, 0;
      ghost var heard: seq<Arrival> := [];
      ghost var file0, raw0, timing0 := file, raw, timing;
      NothingHeard();
      while i < |turns| && !turns[i].stop
        invariant 0 <= i <= |turns| && rc == 0 && Valid() && (ob.buf == old(ob.buf) || fresh(ob.buf))
        invariant heard + Heard(turns, i, portOpen, reconnect) == Heard(turns, 0, true, reconnect)
        invariant ExitCode(turns, i, portOpen, reconnect) == ExitCode(turns, 0, true, reconnect)
        invariant first <= ob.asked && ob.Granted(first, ob.asked)
        invariant InStep(heard, file0, raw0, timing0)
        invariant !portOpen ==> reconnect
        decreases |turns| - i
      {
        var turn := turns[i];
        i := i + 1;
        if turn.kill { break; }
        if turn.timeout { rc := 6; break; }
        if portOpen && turn.read.Got? {
          if turn.read.data != "" {
            var a := Arrival(Chunk(turn.read.data, turn.stamp), turn.offset);
            ghost var asked := ob.asked;
            var ok := TakeChunk(a, heard, file0, raw0, timing0);
            ob.GrantedJoin(first, asked, ob.asked);
            if !ok { rc := 4; break; }
            ghost var later := Heard(turns, i, true, reconnect);
            assert (heard + [a]) + later == heard + ([a] + later);
            heard := heard + [a];
          }
        } else if portOpen {
          portOpen := false;
          if !reconnect { rc := 5; break; }
        }
        if !portOpen && reconnect {
          Flush(turn.flush, heard, file0, raw0, timing0);
          portOpen := turn.reopens;
          continue;
        }
        if turn.flushDue {
          Flush(turn.flush, heard, file0, raw0, timing0);
        }
      }
      if rc == 4 {
        var _ := FlushToFile(last);
      } else {
        assert heard == Heard(turns, 0, true, reconnect);
        Flush(last, heard, file0, raw0, timing0);
        InStepMeans(heard, file0, raw0, timing0);
      }
      lost := ob.Contents();
    }

    /** `run_replay`: the recorded chunks go through the same assembly and flushing, as far as the replay gets. */
    method RunReplay(raw: string, lines: seq<string>, stamps: seq<string>, beats: seq<Beat>, last: Attempt)
      returns (rc: int, lost: string, slept: nat)
      requires Valid() && ob.Contents() == "" && ob.atLineStart && !record
      requires |stamps| == |beats| == |lines|
      modifies this, ob, ob.buf
      ensures old(ob.asked) <= ob.asked && (rc == 4 <==> !ob.Granted(old(ob.asked), ob.asked))
      ensures last == Written && rc != 4 ==> lost == ""
      ensures rc != 4 ==>
                var p := PlayedFrom(raw, lines, beats, 0, 0);
                var r := Replayed(raw, lines, stamps, 0);
                && rc == p.rc && slept == p.slept && p.fed <= |r|
                && file + lost == old(file) + Shown(Chunks(r[..p.fed]), timestamp)
    {
      hide Shown, InStep, Chunks, Replayed, PlayedFrom;
      ghost var file0, raw0, timing0 := file, this.raw, timing;
      ghost var heard: seq<Arrival>;
      NothingHeard();
      rc, slept, heard := Play(raw, lines, stamps, beats, file0, raw0, timing0);
      if rc == 4 {
        var _ := FlushToFile(last);
      } else {
        Flush(last, heard, file0, raw0, timing0);
        InStepMeans(heard, file0, raw0, timing0);
      }
      lost := ob.Contents();
    }

    /** Room for a chunk to replay. */
    method Room(ghost heard: seq<Arrival>, ghost file0: string, ghost raw0: string, ghost timing0: seq<Timing>)
      returns (ok: bool)
      requires InStep(heard, file0, raw0, timing0)
      modifies ob`asked
      ensures InStep(heard, file0, raw0, timing0) && Valid()
      ensures ob.asked == old(ob.asked) + 1 && (ok <==> ob.Granted(old(ob.asked), ob.asked))
    {
      hide Shown, AssembledEnd, Bytes, Times, Chunks;
      ok := ob.Allocate();
    }

    /** A replayed chunk, and a flush when one is due. */
    method Feed(a: Arrival, beat: Beat,
                ghost heard: seq<Arrival>, ghost file0: string, ghost raw0: string, ghost timing0: seq<Timing>)
      returns (ok: bool)
      requires InStep(heard, file0, raw0, timing0)
      modifies this, ob, ob.buf
      ensures Valid() && (ob.buf == old(ob.buf) || fresh(ob.buf))
      ensures old(ob.asked) <= ob.asked && (ok <==> ob.Granted(old(ob.asked), ob.asked))
      ensures ok ==> InStep(heard + [a], file0, raw0, timing0)
    {
      hide InStep;
      ok := TakeChunk(a, heard, file0, raw0, timing0);
      if ok && beat.flushDue {
        Flush(beat.flush, heard + [a], file0, raw0, timing0);
      }
    }

    /** The loop over the timing file. */
    method Play(raw: string, lines: seq<string>, stamps: seq<string>, beats: seq<Beat>,
                ghost file0: string, ghost raw0: string, ghost timing0: seq<Timing>)
      returns (rc: int, slept: nat, ghost heard: seq<Arrival>)
      requires InStep([], file0, raw0, timing0)
      requires |stamps| == |beats| == |lines|
      modifies this, ob, ob.buf
      ensures Valid() && (ob.buf == old(ob.buf) || fresh(ob.buf))
      ensures old(ob.asked) <= ob.asked && (rc == 4 <==> !ob.Granted(old(ob.asked), ob.asked))
      ensures rc != 4 ==>
                var p := PlayedFrom(raw, lines, beats, 0, 0);
                var r := Replayed(raw, lines, stamps, 0);
                && rc == p.rc && slept == p.slept && p.fed <= |r| && heard == r[..p.fed]
                && InStep(heard, file0, raw0, timing0)
    {
      hide Shown, InStep, Chunks, Times, TimingOf, Replayed, PlayedFrom, Pause, Gap, OBuf.Granted;
      rc, slept, heard := 0, 0, [];
      var at: nat, prev: nat, i, cap := 0, 0, 0, 0;
      ghost var goal, all := PlayedFrom(raw, lines, beats, 0, 0), Replayed(raw, lines, stamps, 0);
      assert raw[0..] == raw;
      InStepValid([], file0, raw0, timing0);
      ghost var first := ob.asked;
      ob.GrantedJoin(first, first, first);
      while i < |lines|
        invariant 0 <= i <= |lines| && 0 <= at <= |raw| && rc == 0 && Valid()
            && (ob.buf == old(ob.buf) || fresh(ob.buf))
        invariant heard + Replayed(raw[at..], lines, stamps, i) == all
        invariant goal == Later(heard, slept, PlayedFrom(raw[at..], lines, beats, i, prev))
        invariant first <= ob.asked && ob.Granted(first, ob.asked)
        invariant InStep(heard, file0, raw0, timing0)
      {
        var line, beat, stamp := lines[i], beats[i], stamps[i];
        ReplayedStep(raw[at..], lines, stamps, i);
        PlayedStep(raw[at..], lines, beats, i, prev);
        Fed(heard, Replayed(raw[at..], lines, stamps, i));
        i := i + 1;
        if beat.timeout { return 6, slept, heard; }
        var t := TimingOf(line);
        if t.None? { continue; }
        var completed, time := ReplaySleep(Gap(t.value.offset, prev), beat.polls);
        prev := t.value.offset;
        slept := slept + time;
        if !completed { return if beat.late then 6 else 0, slept, heard; }
        var n := t.value.length;
        if n > cap {
          ghost var asked := ob.asked;
          var granted := Room(heard, file0, raw0, timing0);
          ob.GrantedJoin(first, asked, ob.asked);
          if !granted { return 4, slept, heard; }
          cap := n;
        }
        if n > |raw| - at { return 0, slept, heard; }
        var a := Arrival(Chunk(raw[at..at + n], stamp), t.value.offset);
        Slice(raw, at, n);
        Regroup(heard, a, Replayed(raw[at + n..], lines, stamps, i));
        ghost var asked := ob.asked;
        var ok := Feed(a, beat, heard, file0, raw0, timing0);
        ob.GrantedJoin(first, asked, ob.asked);
        if !ok { return 4, slept, heard; }
        at := at + n;
        heard := heard + [a];
      }
      PlayedEnd(raw[at..], lines, beats, prev);
      Fed(heard, Replayed(raw[at..], lines, stamps, i));
    }

    lemma InStepValid(heard: seq<Arrival>, file0: string, raw0: string, timing0: seq<Timing>)
      requires InStep(heard, file0, raw0, timing0)
      ensures Valid()
    {}

    /** An undisturbed replay without stamps puts the recorded bytes behind the file, at the recorded pace. */
    method ReplayRecording(recorded: seq<Arrival>, beats: seq<Beat>, last: Attempt)
      returns (rc: int, lost: string, slept: nat)
      requires Valid() && ob.Contents() == "" && ob.atLineStart && !record && !timestamp
      requires |beats| == |recorded| && Quiet(beats)
      modifies this, ob, ob.buf
      ensures old(ob.asked) <= ob.asked && (rc == 4 <==> !ob.Granted(old(ob.asked), ob.asked))
      ensures rc == 0 || rc == 4
      ensures (forall k :: ob.grants(k)) ==> rc == 0
      ensures rc == 0 ==> file + lost == old(file) + Bytes(Chunks(recorded)) && (last == Written ==> lost == "")
      ensures rc == 0 && recorded != [] ==> (slept == recorded[|recorded| - 1].offset <==> OffsetsRise(recorded))
    {
      hide Chunks, Bytes, Replayed, PlayedFrom, TimingLines, Quiet, OffsetsRise;
      var stamps := seq(|recorded|, i => "");
      RecordingPlaysBack(recorded, stamps, beats);
      var raw, lines := Bytes(Chunks(recorded)), TimingLines(recorded);
      ghost var r := Replayed(raw, lines, stamps, 0);
      assert r[..|r|] == r;
      rc, lost, slept := RunReplay(raw, lines, stamps, beats, last);
    }

    lemma NothingHeard()
      requires Valid() && ob.Contents() == "" && ob.atLineStart
      ensures InStep([], file, raw, timing)
    {}

    lemma InStepMeans(heard: seq<Arrival>, file0: string, raw0: string, timing0: seq<Timing>)
      requires InStep(heard, file0, raw0, timing0)
      ensures Valid() && file + ob.Contents() == file0 + Shown(Chunks(heard), timestamp)
      ensures record ==> raw == raw0 + Bytes(Chunks(heard)) && timing == timing0 + Times(heard)
    {}
  }
}
