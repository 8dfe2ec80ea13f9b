/** The serial monitor: lines and matches across datagram boundaries. */
module SerialMonitor {
  import opened Wrappers

  predicate IsBreak(c: char) { c == '\r' || c == '\n' }

  predicate NoBreak(s: string) { forall i :: 0 <= i < |s| ==> !IsBreak(s[i]) }

  /** The text cut at every CR and every LF. */
  function Pieces(s: string): (r: seq<string>)
    ensures |r| > 0
  {
    if s == "" then [""]
    else
      var rest := Pieces(s[1..]);
      if IsBreak(s[0]) then [""] + rest else [[s[0]] + rest[0]] + rest[1..]
  }

  /** `re.split(r"\r\n|\n|\r", s)` */
  function Cut(s: string): (r: seq<string>)
    ensures |r| > 0
    decreases |s|
  {
    if s == "" then [""]
    else if |s| > 1 && s[0] == '\r' && s[1] == '\n' then [""] + Cut(s[2..])
    else
      var rest := Cut(s[1..]);
      if IsBreak(s[0]) then [""] + rest else [[s[0]] + rest[0]] + rest[1..]
  }

  function NonEmpty(parts: seq<string>): seq<string> {
    if parts == [] then [] else (if parts[0] != "" then [parts[0]] else []) + NonEmpty(parts[1..])
  }

  /** Lines completed so far and the text since the last terminator. */
  datatype Log = Log(lines: seq<string>, tail: string)

  /** What a text should leave in the log: its non-empty pieces but the last, and the last. */
  function LogOf(text: string): Log {
    var p := Pieces(text);
    Log(NonEmpty(p[..|p| - 1]), p[|p| - 1])
  }

  // ---- the same, character by character

  function Done(log: Log): Log { Log(if log.tail != "" then log.lines + [log.tail] else log.lines, "") }

  function Feed(log: Log, s: string): Log
    decreases |s|
  {
    if s == "" then log
    else Feed(if IsBreak(s[0]) then Done(log) else log.(tail := log.tail + [s[0]]), s[1..])
  }

  lemma {:induction false} FeedConcat(log: Log, a: string, b: string)
    ensures Feed(log, a + b) == Feed(Feed(log, a), b)
    decreases |a|
  {
    if a == "" {
      assert a + b == b;
    } else {
      assert (a + b)[1..] == a[1..] + b;
      FeedConcat(if IsBreak(a[0]) then Done(log) else log.(tail := log.tail + [a[0]]), a[1..], b);
    }
  }

  lemma {:induction false} FeedPlain(log: Log, s: string)
    requires NoBreak(s)
    ensures Feed(log, s) == log.(tail := log.tail + s)
    decreases |s|
  {
    if s == "" {
      assert log.tail + s == log.tail;
    } else {
      FeedPlain(log.(tail := log.tail + [s[0]]), s[1..]);
      assert (log.tail + [s[0]]) + s[1..] == log.tail + s;
    }
  }

  /** A log taking in a text already cut: all pieces but the last are complete. */
  function Absorb(log: Log, parts: seq<string>): Log
    requires |parts| > 0
    decreases |parts|
  {
    var joined := log.(tail := log.tail + parts[0]);
    if |parts| == 1 then joined else Absorb(Done(joined), parts[1..])
  }

  lemma AbsorbChar(log: Log, c: char, parts: seq<string>)
    requires |parts| > 0
    ensures Absorb(log, [[c] + parts[0]] + parts[1..]) == Absorb(log.(tail := log.tail + [c]), parts)
  {
    var all := [[c] + parts[0]] + parts[1..];
    assert all[1..] == parts[1..];
    assert log.tail + ([c] + parts[0]) == (log.tail + [c]) + parts[0];
  }

  lemma AbsorbBreak(log: Log, parts: seq<string>)
    requires |parts| > 0
    ensures Absorb(log, [""] + parts) == Absorb(Done(log), parts)
  {
    assert ([""] + parts)[1..] == parts;
    assert log.tail + "" == log.tail;
  }

  lemma AbsorbNothing(log: Log)
    ensures Absorb(log, [""]) == log
  {
    assert log.tail + "" == log.tail;
  }

  lemma {:induction false} AbsorbPieces(log: Log, s: string)
    ensures Absorb(log, Pieces(s)) == Feed(log, s)
    decreases |s|
  {
    hide Absorb;
    if s == "" {
      AbsorbNothing(log);
    } else if IsBreak(s[0]) {
      AbsorbBreak(log, Pieces(s[1..]));
      AbsorbPieces(Done(log), s[1..]);
    } else {
      AbsorbChar(log, s[0], Pieces(s[1..]));
      AbsorbPieces(log.(tail := log.tail + [s[0]]), s[1..]);
    }
  }

  /** CR LF as one terminator or as two: the empty line between them is dropped. */
  lemma {:induction false} AbsorbCut(log: Log, s: string)
    ensures Absorb(log, Cut(s)) == Feed(log, s)
    decreases |s|
  {
    hide Absorb;
    if s == "" {
      AbsorbNothing(log);
    } else if |s| > 1 && s[0] == '\r' && s[1] == '\n' {
      AbsorbBreak(log, Cut(s[2..]));
      AbsorbCut(Done(log), s[2..]);
      assert s[1..][1..] == s[2..] && Done(Done(log)) == Done(log);
    } else if IsBreak(s[0]) {
      AbsorbBreak(log, Cut(s[1..]));
      AbsorbCut(Done(log), s[1..]);
    } else {
      AbsorbChar(log, s[0], Cut(s[1..]));
      AbsorbCut(log.(tail := log.tail + [s[0]]), s[1..]);
    }
  }

  lemma {:induction false} AbsorbFresh(lines: seq<string>, parts: seq<string>)
    requires |parts| > 0
    ensures Absorb(Log(lines, ""), parts) == Log(lines + NonEmpty(parts[..|parts| - 1]), parts[|parts| - 1])
    decreases |parts|
  {
    assert "" + parts[0] == parts[0];
    var front := parts[..|parts| - 1];
    if |parts| == 1 {
      assert lines + [] == lines;
    } else {
      var first := if parts[0] != "" then [parts[0]] else [];
      var rest := parts[1..];
      assert front[1..] == rest[..|rest| - 1];
      AbsorbFresh(lines + first, rest);
      assert (lines + first) + NonEmpty(front[1..]) == lines + (first + NonEmpty(front[1..]));
      assert lines + [] == lines;
    }
  }

  /** Cutting at every CR and LF is what feeding the characters one by one leaves. */
  lemma LogIsFeed(text: string)
    ensures LogOf(text) == Feed(Log([], ""), text)
  {
    var p := Pieces(text);
    AbsorbPieces(Log([], ""), text);
    AbsorbFresh([], p);
    assert [] + NonEmpty(p[..|p| - 1]) == NonEmpty(p[..|p| - 1]);
  }

  /** The log of any text, character by character: a CR or an LF ends the line, anything else goes on with it. */
  lemma LogSteps(text: string, c: char)
    ensures LogOf("") == Log([], "")
    ensures var log := LogOf(text);
            LogOf(text + [c])
            == if c == '\r' || c == '\n' then Log(log.lines + (if log.tail != "" then [log.tail] else []), "")
               else Log(log.lines, log.tail + [c])
  {
    hide Pieces, NonEmpty, LogOf;
    LogIsFeed("");
    LogIsFeed(text);
    LogIsFeed(text + [c]);
    FeedConcat(Log([], ""), text, [c]);
    var log := LogOf(text);
    assert [c][1..] == "";
    assert log.lines + [] == log.lines;
  }

  /** Appending to a text with a given log. */
  lemma LogGrows(text: string, lineBuf: string, lines: seq<string>, chunk: string)
    requires LogOf(text) == Log(lines, lineBuf) && NoBreak(lineBuf)
    ensures var c := Cut(lineBuf + chunk);
            LogOf(text + chunk) == Log(lines + NonEmpty(c[..|c| - 1]), c[|c| - 1])
  {
    hide Absorb, Pieces, Cut, NonEmpty;
    LogIsFeed(text);
    LogIsFeed(text + chunk);
    FeedConcat(Log([], ""), text, chunk);
    FeedPlain(Log(lines, ""), lineBuf);
    assert "" + lineBuf == lineBuf;
    FeedConcat(Log(lines, ""), lineBuf, chunk);
    AbsorbCut(Log(lines, ""), lineBuf + chunk);
    AbsorbFresh(lines, Cut(lineBuf + chunk));
  }

  lemma {:induction false} PiecesUnbroken(s: string)
    ensures forall i :: 0 <= i < |Pieces(s)| ==> NoBreak(Pieces(s)[i])
  {
    if s != "" {
      PiecesUnbroken(s[1..]);
      var rest := Pieces(s[1..]);
      assert NoBreak(rest[0]);
    }
  }

  lemma {:induction false} CutUnbroken(s: string)
    requires NoBreak(s)
    ensures Cut(s) == [s]
    decreases |s|
  {
    if s != "" {
      assert !IsBreak(s[0]);
      CutUnbroken(s[1..]);
      assert s == [s[0]] + s[1..];
    }
  }

  // ---- matches of a literal

  predicate OccursAt(text: string, p: nat, pat: string) { p + |pat| <= |text| && text[p..p + |pat|] == pat }

  /** The earliest occurrence at or after `pos`. */
  function Find(text: string, pos: nat, pat: string): (r: Option<nat>)
    ensures r.Some? ==> pos <= r.value && OccursAt(text, r.value, pat)
    decreases |text| - pos
  {
    if pos + |pat| > |text| then None
    else if OccursAt(text, pos, pat) then Some(pos)
    else if pos < |text| then Find(text, pos + 1, pat)
    else None
  }

  lemma {:induction false} FindEarliest(text: string, pos: nat, pat: string, q: nat)
    requires pos <= q && OccursAt(text, q, pat)
    ensures Find(text, pos, pat).Some? && Find(text, pos, pat).value <= q
    decreases q - pos
  {
    if !OccursAt(text, pos, pat) {
      FindEarliest(text, pos + 1, pat, q);
    }
  }

  /** A match found in what has arrived stays the match, whatever arrives later. */
  lemma FindStable(text: string, more: string, pos: nat, pat: string)
    requires Find(text, pos, pat).Some?
    ensures Find(text + more, pos, pat) == Find(text, pos, pat)
  {
    var p := Find(text, pos, pat).value;
    assert (text + more)[p..p + |pat|] == text[p..p + |pat|];
    FindEarliest(text + more, pos, pat, p);
    var q := Find(text + more, pos, pat).value;
    assert (text + more)[q..q + |pat|] == text[q..q + |pat|];
    FindEarliest(text, pos, pat, q);
  }

  /** Where a sequence of literals matches in a text that is all there. */
  function Walk(text: string, pos: nat, pats: seq<string>): Option<seq<nat>>
    decreases |pats|
  {
    if pats == [] then Some([])
    else
      match Find(text, pos, pats[0])
      case None => None
      case Some(p) =>
        match Walk(text, p + |pats[0]|, pats[1..])
        case None => None
        case Some(ps) => Some([p] + ps)
  }

  /** `p` is the earliest occurrence at or after `from`, and ends within the text. */
  predicate EarliestFrom(text: string, from: nat, p: nat, pat: string) {
    from <= p < p + |pat| <= |text| && OccursAt(text, p, pat) && forall q :: from <= q < p ==> !OccursAt(text, q, pat)
  }

  /** The end of the match before the `i`th. */
  function EndBefore(pos: nat, pats: seq<string>, ps: seq<nat>, i: nat): nat
    requires i <= |ps| == |pats|
  {
    if i == 0 then pos else ps[i - 1] + |pats[i - 1]|
  }

  /** Each match is the earliest after the one before; none overlap; the last ends within the text. */
  lemma {:induction false} WalkOrder(text: string, pos: nat, pats: seq<string>)
    requires pos <= |text| && forall i :: 0 <= i < |pats| ==> pats[i] != ""
    requires Walk(text, pos, pats).Some?
    ensures var ps := Walk(text, pos, pats).value;
            |ps| == |pats| && forall i :: 0 <= i < |ps| ==>
                EarliestFrom(text, EndBefore(pos, pats, ps, i), ps[i], pats[i])
    decreases |pats|
  {
    hide Find, EarliestFrom;
    if pats != [] {
      var p := Find(text, pos, pats[0]).value;
      var rest, next := pats[1..], p + |pats[0]|;
      FirstIsEarliest(text, pos, pats[0]);
      assert next <= |text|;
      WalkOrder(text, next, rest);
      var ps := Walk(text, pos, pats).value;
      var tail := Walk(text, next, rest).value;
      forall i | 0 <= i < |ps| ensures EarliestFrom(text, EndBefore(pos, pats, ps, i), ps[i], pats[i]) {
        if i > 0 {
          assert ps[i] == tail[i - 1] && pats[i] == rest[i - 1];
          assert EndBefore(next, rest, tail, i - 1) == EndBefore(pos, pats, ps, i);
        }
      }
    }
  }

  lemma FirstIsEarliest(text: string, pos: nat, pat: string)
    requires pat != "" && Find(text, pos, pat).Some?
    ensures EarliestFrom(text, pos, Find(text, pos, pat).value, pat)
  {
    var p := Find(text, pos, pat).value;
    forall q | pos <= q < p ensures !OccursAt(text, q, pat) {
      if OccursAt(text, q, pat) { FindEarliest(text, pos, pat, q); }
    }
  }

  function Concat(chunks: seq<string>): string {
    if chunks == [] then "" else chunks[0] + Concat(chunks[1..])
  }

  // ---- the monitor

  const PARTIAL_MARK := "  <partial line>"

  class Monitor {
    var text: string
    var pos: nat
    var lineBuf: string
    /** The lines handed to the log, in order. */
    var logged: seq<string>

    /** Whatever the datagrams were, the log holds the lines of the text and the buffer its tail. */
    ghost predicate Valid()
      reads this
    {
      LogOf(text) == Log(logged, lineBuf) && pos <= |text|
    }

    constructor ()
      ensures Valid() && text == "" && pos == 0
    {
      text, pos, lineBuf, logged := "", 0, "", [];
    }

    /** `_take_lines` */
    method TakeLines(chunk: string) returns (lines: seq<string>)
      requires NoBreak(lineBuf)
      modifies this`lineBuf
      ensures var c := Cut(old(lineBuf) + chunk);
              lines == NonEmpty(c[..|c| - 1]) && lineBuf == c[|c| - 1]
    {
      lineBuf := lineBuf + chunk;
      var i := 0;
      while i < |lineBuf| && !IsBreak(lineBuf[i])
        invariant 0 <= i <= |lineBuf|
        invariant forall k :: 0 <= k < i ==> !IsBreak(lineBuf[k])
      {
        i := i + 1;
      }
      if i == |lineBuf| {
        CutUnbroken(lineBuf);
        assert [lineBuf][..0] == [];
        return [];
      }
      var parts := Cut(lineBuf);
      lineBuf := parts[|parts| - 1];
      return NonEmpty(parts[..|parts| - 1]);
    }

    /** One datagram in `_reader`. */
    method Receive(chunk: string)
      requires Valid()
      modifies this
      ensures Valid() && text == old(text) + chunk && pos == old(pos)
    {
      assert NoBreak(lineBuf) by { PiecesUnbroken(text); }
      LogGrows(text, lineBuf, logged, chunk);
      hide Pieces, Cut, NonEmpty, LogOf;
      text := text + chunk;
      var lines := TakeLines(chunk);
      logged := logged + lines;
    }

    /** `expect` for a literal, with the datagrams that arrive before its deadline. */
    method Expect(pat: string, arriving: seq<string>) returns (m: Option<nat>, used: nat)
      requires Valid() && pat != ""
      modifies this
      ensures Valid() && used <= |arriving| && text == old(text) + Concat(arriving[..used])
      ensures m.Some? ==> m == Find(text, old(pos), pat) && pos == m.value + |pat|
      ensures m.None? ==> pos == old(pos) && used == |arriving| && Find(text, old(pos), pat).None?
    {
      hide Find, LogOf;
      used := 0;
      assert arriving[..0] == [] && text + "" == text;
      while true
        invariant 0 <= used <= |arriving| && Valid() && pos == old(pos)
        invariant text == old(text) + Concat(arriving[..used])
        decreases |arriving| - used
      {
        m := Find(text, pos, pat);
        if m.Some? {
          pos := if m.value + |pat| > m.value + 1 then m.value + |pat| else m.value + 1;
          return;
        }
        if used == |arriving| { return; }
        ConcatMore(arriving, used);
        assert (old(text) + Concat(arriving[..used])) + arriving[used] == old(text) + Concat(arriving[..used + 1]);
        Receive(arriving[used]);
        used := used + 1;
      }
    }

    /** The datagrams that arrive between two calls. */
    method ReceiveAll(arriving: seq<string>)
      requires Valid()
      modifies this
      ensures Valid() && text == old(text) + Concat(arriving) && pos == old(pos)
    {
      hide LogOf;
      NoChunks();
      assert arriving[..0] == [] && text + "" == text;
      for i := 0 to |arriving|
        invariant Valid() && pos == old(pos) && text == old(text) + Concat(arriving[..i])
      {
        ConcatMore(arriving, i);
        assert (old(text) + Concat(arriving[..i])) + arriving[i] == old(text) + Concat(arriving[..i + 1]);
        Receive(arriving[i]);
      }
      assert arriving[..|arriving|] == arriving;
    }

    /**
      * A sequence of `expect` calls; up to `between[i]` datagrams arrive before the call for `pats[i]`.
      * They find what they would find with everything already there.
      */
    method ExpectAll(pats: seq<string>, arriving: seq<string>, between: seq<nat>) returns (found: Option<seq<nat>>)
      requires Valid() && forall i :: 0 <= i < |pats| ==> pats[i] != ""
      requires |between| == |pats|
      modifies this
      ensures Valid() && found == Walk(old(text) + Concat(arriving), old(pos), pats)
    {
      hide Find, LogOf, Concat, OccursAt;
      ghost var full := text + Concat(arriving);
      var ps: seq<nat>, left := [], arriving;
      assert pats[0..] == pats;
      ghost var all := Walk(full, pos, pats);
      assert all.Some? ==> [] + all.value == all.value;
      for i := 0 to |pats|
        invariant Valid() && full == text + Concat(left)
        invariant all == match Walk(full, pos, pats[i..]) case None => None case Some(rest) => Some(ps + rest)
      {
        assert pats[i..][1..] == pats[i + 1..];
        var early := if between[i] < |left| then between[i] else |left|;
        ConcatSplit(left, early);
        Associate(text, Concat(left[..early]), Concat(left[early..]));
        ReceiveAll(left[..early]);
        left := left[early..];
        ghost var here, before := pos, text;
        var m, n := Expect(pats[i], left);
        ConcatSplit(left, n);
        Associate(before, Concat(left[..n]), Concat(left[n..]));
        left := left[n..];
        ghost var more := Concat(left);
        if m.None? {
          assert more == "" by { NoChunks(); assert left == []; }
          assert text + "" == text;
          return None;
        }
        FindStable(text, more, here, pats[i]);
        ghost var rest := Walk(full, pos, pats[i + 1..]);
        assert rest.Some? ==> ps + ([m.value] + rest.value) == (ps + [m.value]) + rest.value;
        ps := ps + [m.value];
      }
      assert pats[|pats|..] == [] && ps + [] == ps;
      return Some(ps);
    }

    /** `mark`: only later text can satisfy the next `expect`. */
    method Mark()
      requires Valid()
      modifies this`pos
      ensures Valid() && pos == |text|
      ensures forall more, pat :: Find(text + more, pos, pat).Some? ==> Find(text + more, pos, pat).value >= |text|
    {
      pos := |text|;
    }

    /** `stop`: a tail that never got its terminator is logged, and marked. */
    method Stop()
      modifies this`lineBuf, this`logged
      ensures logged == old(logged) + (if old(lineBuf) != "" then [old(lineBuf) + PARTIAL_MARK] else [])
                && lineBuf == ""
    {
      if lineBuf != "" {
        logged := logged + [lineBuf + PARTIAL_MARK];
        lineBuf := "";
      }
    }
  }

  lemma Associate(a: string, b: string, c: string)
    ensures (a + b) + c == a + (b + c)
  {}

  lemma NoChunks()
    ensures Concat([]) == ""
  {}

  lemma {:induction false} ConcatMore(chunks: seq<string>, n: nat)
    requires n < |chunks|
    ensures Concat(chunks[..n + 1]) == Concat(chunks[..n]) + chunks[n]
  {
    if n == 0 {
      assert chunks[..1] == [chunks[0]] && chunks[..1][1..] == [];
    } else {
      ConcatMore(chunks[1..], n - 1);
      assert chunks[..n + 1][1..] == chunks[1..][..n] && chunks[..n][1..] == chunks[1..][..n - 1];
    }
  }

  lemma {:induction false} ConcatSplit(chunks: seq<string>, n: nat)
    requires n <= |chunks|
    ensures Concat(chunks) == Concat(chunks[..n]) + Concat(chunks[n..])
  {
    if n > 0 {
      ConcatSplit(chunks[1..], n - 1);
      assert chunks[..n][1..] == chunks[1..][..n - 1] && chunks[n..] == chunks[1..][n - 1..];
    } else {
      assert chunks[..0] == [] && chunks[0..] == chunks;
    }
  }
}
