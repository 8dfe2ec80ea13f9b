/** comlogger's output assembly: a growing buffer with a stamp at every line start. */
module OutputBuffer {
  import opened Wrappers

  // ---- what the output should be, byte by byte

  /** `data` with `stamp` before every byte that begins a line. */
  function Stamped(data: string, stamp: string, atStart: bool): string {
    if data == "" then ""
    else (if atStart then stamp else "") + [data[0]] + Stamped(data[1..], stamp, data[0] == '\n')
  }

  /** Whether a line begins after `data`. */
  function EndsLine(data: string, atStart: bool): bool {
    if data == "" then atStart else data[|data| - 1] == '\n'
  }

  /** One stamp for all: how the bytes are cut into chunks makes no difference. */
  lemma {:induction false} StampedConcat(a: string, b: string, stamp: string, atStart: bool)
    ensures Stamped(a + b, stamp, atStart) == Stamped(a, stamp, atStart) + Stamped(b, stamp, EndsLine(a, atStart))
  {
    if a == "" {
      assert a + b == b;
    } else {
      var x := (if atStart then stamp else "") + [a[0]];
      assert (a + b)[1..] == a[1..] + b;
      StampedConcat(a[1..], b, stamp, a[0] == '\n');
      assert EndsLine(a[1..], a[0] == '\n') == EndsLine(a, atStart);
      Associate(x, Stamped(a[1..], stamp, a[0] == '\n'), Stamped(b, stamp, EndsLine(a, atStart)));
    }
  }

  lemma Associate(a: string, b: string, c: string)
    ensures (a + b) + c == a + (b + c)
  {}

  /** A run of bytes without a line break needs at most one stamp, in front. */
  lemma {:induction false} StampedRun(data: string, stamp: string)
    requires forall i :: 0 <= i < |data| - 1 ==> data[i] != '\n'
    ensures Stamped(data, stamp, false) == data
  {
    if data != "" {
      if |data| == 1 {
        assert data[1..] == "";
      }
      StampedRun(data[1..], stamp);
      assert data == [data[0]] + data[1..];
    }
  }

  // ---- chunks with stamps of their own

  /** A chunk and the stamp taken when it arrived. */
  datatype Chunk = Chunk(data: string, stamp: string)

  function Assembled(chunks: seq<Chunk>, atStart: bool): string {
    if chunks == [] then ""
    else Stamped(chunks[0].data, chunks[0].stamp, atStart) + Assembled(chunks[1..], EndsLine(chunks[0].data, atStart))
  }

  function Bytes(chunks: seq<Chunk>): string {
    if chunks == [] then "" else chunks[0].data + Bytes(chunks[1..])
  }

  function AssembledEnd(chunks: seq<Chunk>, atStart: bool): bool {
    if chunks == [] then atStart else AssembledEnd(chunks[1..], EndsLine(chunks[0].data, atStart))
  }

  /** With one stamp throughout, any chunking gives what the whole stream in one chunk gives. */
  lemma {:induction false} ChunkingIrrelevant(chunks: seq<Chunk>, stamp: string, atStart: bool)
    requires forall i :: 0 <= i < |chunks| ==> chunks[i].stamp == stamp
    ensures Assembled(chunks, atStart) == Stamped(Bytes(chunks), stamp, atStart)
  {
    if chunks != [] {
      ChunkingIrrelevant(chunks[1..], stamp, EndsLine(chunks[0].data, atStart));
      StampedConcat(chunks[0].data, Bytes(chunks[1..]), stamp, atStart);
    }
  }

  /** A byte and the stamp of the chunk it arrived in. */
  datatype Tagged = Tagged(byte: char, stamp: string)

  function TagAll(data: string, stamp: string): (r: seq<Tagged>)
    ensures |r| == |data|
  {
    if data == "" then [] else [Tagged(data[0], stamp)] + TagAll(data[1..], stamp)
  }

  function Stream(chunks: seq<Chunk>): seq<Tagged> {
    if chunks == [] then [] else TagAll(chunks[0].data, chunks[0].stamp) + Stream(chunks[1..])
  }

  function Untag(ts: seq<Tagged>): string {
    if ts == [] then "" else [ts[0].byte] + Untag(ts[1..])
  }

  /** Index just past the first line break, or the whole length. */
  function LineEnd(ts: seq<Tagged>): (n: nat)
    ensures n <= |ts| && (ts != [] ==> n > 0)
  {
    if ts == [] then 0 else if ts[0].byte == '\n' then 1 else 1 + LineEnd(ts[1..])
  }

  /** The lines begun in the stream, breaks included. */
  function Lines(ts: seq<Tagged>): seq<seq<Tagged>> {
    if ts == [] then [] else [ts[..LineEnd(ts)]] + Lines(ts[LineEnd(ts)..])
  }

  /** A line as it should appear: the stamp of the chunk that holds its first byte, then its bytes. */
  function StampedLine(line: seq<Tagged>): string
    requires line != []
  {
    line[0].stamp + Untag(line)
  }

  function StampedLines(lines: seq<seq<Tagged>>): string
    requires forall i :: 0 <= i < |lines| ==> lines[i] != []
  {
    if lines == [] then "" else StampedLine(lines[0]) + StampedLines(lines[1..])
  }

  function Plain(lines: seq<seq<Tagged>>): string {
    if lines == [] then "" else Untag(lines[0]) + Plain(lines[1..])
  }

  lemma {:induction false} LinesNonEmpty(ts: seq<Tagged>)
    ensures forall i :: 0 <= i < |Lines(ts)| ==> Lines(ts)[i] != []
  {
    if ts != [] {
      LinesNonEmpty(ts[LineEnd(ts)..]);
    }
  }

  /** Byte by byte over tagged bytes. */
  function Output(ts: seq<Tagged>, atStart: bool): string {
    if ts == [] then ""
    else (if atStart then ts[0].stamp else "") + [ts[0].byte] + Output(ts[1..], ts[0].byte == '\n')
  }

  lemma {:induction false} OutputChunk(data: string, stamp: string, rest: seq<Tagged>, atStart: bool)
    ensures Output(TagAll(data, stamp) + rest, atStart)
         == Stamped(data, stamp, atStart) + Output(rest, EndsLine(data, atStart))
  {
    var ts := TagAll(data, stamp);
    if data == "" {
      assert ts + rest == rest;
    } else {
      assert (ts + rest)[1..] == TagAll(data[1..], stamp) + rest;
      OutputChunk(data[1..], stamp, rest, data[0] == '\n');
      assert EndsLine(data[1..], data[0] == '\n') == EndsLine(data, atStart);
      var x := (if atStart then stamp else "") + [data[0]];
      Associate(x, Stamped(data[1..], stamp, data[0] == '\n'), Output(rest, EndsLine(data, atStart)));
    }
  }

  lemma {:induction false} OutputOfStream(chunks: seq<Chunk>, atStart: bool)
    ensures Assembled(chunks, atStart) == Output(Stream(chunks), atStart)
  {
    if chunks != [] {
      OutputOfStream(chunks[1..], EndsLine(chunks[0].data, atStart));
      OutputChunk(chunks[0].data, chunks[0].stamp, Stream(chunks[1..]), atStart);
    }
  }

  lemma {:induction false} OutputToLineEnd(ts: seq<Tagged>)
    requires ts != []
    ensures Output(ts, false) == Untag(ts[..LineEnd(ts)]) + Output(ts[LineEnd(ts)..], true)
    decreases |ts|
  {
    var n := LineEnd(ts);
    if ts[0].byte == '\n' || |ts| == 1 {
      assert ts[..1][1..] == [];
      if |ts| == 1 {
        assert ts[1..] == [];
      }
    } else {
      OutputToLineEnd(ts[1..]);
      assert ts[..n][1..] == ts[1..][..n - 1];
      assert ts[n..] == ts[1..][n - 1..];
    }
  }

  lemma OutputStart(ts: seq<Tagged>)
    requires ts != []
    ensures Output(ts, true) == ts[0].stamp + Output(ts, false)
  {}

  lemma {:induction false} OutputLines(ts: seq<Tagged>)
    ensures forall i :: 0 <= i < |Lines(ts)| ==> Lines(ts)[i] != []
    ensures Output(ts, true) == StampedLines(Lines(ts))
    decreases |ts|
  {
    hide Output;
    LinesNonEmpty(ts);
    if ts == [] {
      assert Output([], true) == "" by { OutputNothing(); }
    } else {
      var n := LineEnd(ts);
      OutputStart(ts);
      OutputToLineEnd(ts);
      OutputLines(ts[n..]);
    }
  }

  lemma OutputNothing()
    ensures Output([], true) == ""
  {}

  /** Each line carries exactly one stamp, that of the chunk with its first byte. */
  lemma OneStampALine(chunks: seq<Chunk>)
    ensures var lines := Lines(Stream(chunks));
            (forall i :: 0 <= i < |lines| ==> lines[i] != []) && Assembled(chunks, true) == StampedLines(lines)
  {
    OutputOfStream(chunks, true);
    OutputLines(Stream(chunks));
  }

  lemma {:induction false} UntagConcat(a: seq<Tagged>, b: seq<Tagged>)
    ensures Untag(a + b) == Untag(a) + Untag(b)
  {
    if a == [] {
      assert a + b == b;
    } else {
      assert (a + b)[1..] == a[1..] + b;
      UntagConcat(a[1..], b);
    }
  }

  lemma {:induction false} UntagTagged(data: string, stamp: string)
    ensures Untag(TagAll(data, stamp)) == data
  {
    if data != "" {
      UntagTagged(data[1..], stamp);
      assert TagAll(data, stamp)[1..] == TagAll(data[1..], stamp);
    }
  }

  lemma {:induction false} UntagStream(chunks: seq<Chunk>)
    ensures Untag(Stream(chunks)) == Bytes(chunks)
  {
    if chunks != [] {
      UntagStream(chunks[1..]);
      UntagTagged(chunks[0].data, chunks[0].stamp);
      UntagConcat(TagAll(chunks[0].data, chunks[0].stamp), Stream(chunks[1..]));
    }
  }

  lemma {:induction false} PlainLines(ts: seq<Tagged>)
    ensures Plain(Lines(ts)) == Untag(ts)
    decreases |ts|
  {
    if ts != [] {
      var n := LineEnd(ts);
      PlainLines(ts[n..]);
      UntagConcat(ts[..n], ts[n..]);
      assert ts[..n] + ts[n..] == ts;
    }
  }

  /** The lines without their stamps are the bytes that came in. */
  lemma ErasedIsInput(chunks: seq<Chunk>)
    ensures Plain(Lines(Stream(chunks))) == Bytes(chunks)
  {
    PlainLines(Stream(chunks));
    UntagStream(chunks);
  }

  // ---- the buffer

  class OBuf {
    var buf: array<char>
    var len: nat
    var atLineStart: bool
    /** Which of the program's allocations succeed, the first being number 0. */
    const grants: nat -> bool
    /** How many allocations have been asked for. */
    var asked: nat

    /** Every allocation from number `from` up to `to` succeeds. */
    ghost predicate Granted(from: nat, to: nat) { forall k :: from <= k < to ==> grants(k) }

    lemma GrantedJoin(a: nat, b: nat, c: nat)
      requires a <= b <= c
      ensures Granted(a, c) <==> Granted(a, b) && Granted(b, c)
      ensures Granted(a, a)
    {}

    ghost predicate Valid()
      reads this
    {
      len <= buf.Length
    }

    /** The bytes held. */
    function Contents(): string
      requires Valid()
      reads this, buf
    {
      buf[..len]
    }

    constructor (grants: nat -> bool)
      ensures Valid() && fresh(buf) && Contents() == "" && atLineStart && this.grants == grants && asked == 0
    {
      buf, len, atLineStart := new char[0], 0, true;
      this.grants, asked := grants, 0;
    }

    /** One allocation. */
    method Allocate() returns (ok: bool)
      modifies this`asked
      ensures asked == old(asked) + 1 && ok == grants(old(asked)) && (ok <==> Granted(old(asked), asked))
    {
      ok := grants(asked);
      asked := asked + 1;
    }

    /** `ob_reserve`: room for `extra` more bytes, by doubling; nothing changes when memory is refused. */
    method Reserve(extra: nat) returns (ok: bool)
      requires Valid()
      modifies this`buf, this`asked
      ensures Valid() && (buf == old(buf) || fresh(buf))
      ensures ok <==> old(len + extra <= buf.Length) || grants(old(asked))
      ensures asked == old(asked) + if old(len + extra <= buf.Length) then 0 else 1
      ensures ok <==> Granted(old(asked), asked)
      ensures Contents() == old(Contents())
      ensures ok ==> len + extra <= buf.Length
      ensures !ok ==> buf == old(buf)
      ensures buf.Length >= old(buf.Length)
    {
      if len + extra <= buf.Length { return true; }
      var want := if buf.Length > 0 then buf.Length else 8192;
      while want < len + extra
        invariant want > 0 && want >= buf.Length
        decreases len + extra - want
      {
        want := want * 2;
      }
      var granted := Allocate();
      if !granted { return false; }
      var p := new char[want](i => '\0');
      var i := 0;
      while i < len
        invariant buf == old(buf) && unchanged(buf) && 0 <= i <= len <= buf.Length && asked == old(asked) + 1
        invariant p[..i] == buf[..i]
      {
        p[i] := buf[i];
        i := i + 1;
      }
      buf := p;
      return true;
    }

    /** `ob_put` */
    method Put(s: string) returns (ok: bool)
      requires Valid()
      modifies this`buf, this`len, this`asked, buf
      ensures Valid() && (buf == old(buf) || fresh(buf))
      ensures old(asked) <= asked && (ok <==> Granted(old(asked), asked))
      ensures Contents() == if ok then old(Contents()) + s else old(Contents())
    {
      ok := Reserve(|s|);
      if !ok { return; }
      ghost var before := buf[..len];
      var i := 0;
      while i < |s|
        invariant 0 <= i <= |s| && len == old(len) && len + |s| <= buf.Length
        invariant buf[..len + i] == before + s[..i]
        modifies buf
      {
        buf[len + i] := s[i];
        i := i + 1;
      }
      len := len + |s|;
      assert s[..|s|] == s;
    }

    /** `ob_append_chunk`: all of the chunk, or -- when memory is refused -- a beginning of what it should become. */
    method AppendChunk(data: string, stamp: Option<string>) returns (ok: bool)
      requires Valid()
      modifies this, buf
      ensures Valid() && (buf == old(buf) || fresh(buf))
      ensures old(asked) <= asked && (ok <==> Granted(old(asked), asked))
      ensures ok && stamp.None? ==> Contents() == old(Contents()) + data && atLineStart == old(atLineStart)
      ensures ok && stamp.Some? ==>
                Contents() == old(Contents()) + Stamped(data, stamp.value, old(atLineStart))
                && atLineStart == EndsLine(data, old(atLineStart))
      ensures !ok ==> old(Contents()) <= Contents()
                      <= old(Contents()) + if stamp.Some? then Stamped(data, stamp.value, old(atLineStart)) else data
    {
      if stamp.None? {
        ok := Put(data);
        return;
      }
      ok := AppendStamped(data, stamp.value);
    }

    /** The stamp, where one is due. */
    method BeginLine(stamp: string) returns (ok: bool)
      requires Valid()
      modifies this, buf
      ensures Valid() && (buf == old(buf) || fresh(buf))
      ensures old(asked) <= asked && (ok <==> Granted(old(asked), asked))
      ensures Contents() == old(Contents()) + if ok && old(atLineStart) then stamp else ""
      ensures atLineStart == (old(atLineStart) && !ok)
    {
      ok := true;
      if atLineStart {
        ok := Put(stamp);
        if !ok { return; }
        atLineStart := false;
      }
    }

    /** One line of a chunk, or what the chunk holds of it, from `start` up to `next`. */
    method AppendLine(data: string, start: nat, stamp: string) returns (ok: bool, next: nat)
      requires Valid() && start < |data|
      modifies this, buf
      ensures Valid() && (buf == old(buf) || fresh(buf))
      ensures old(asked) <= asked && (ok <==> Granted(old(asked), asked))
      ensures start < next <= |data|
      ensures forall k :: start <= k < next - 1 ==> data[k] != '\n'
      ensures data[next - 1] == '\n' || next == |data|
      ensures var piece := (if old(atLineStart) then stamp else "") + data[start..next];
              if ok then Contents() == old(Contents()) + piece && atLineStart == (data[next - 1] == '\n')
              else old(Contents()) <= Contents() <= old(Contents()) + piece
    {
      ghost var mark := if atLineStart then stamp else "";
      ok := BeginLine(stamp);
      next := start;
      while next < |data| && data[next] != '\n'
        invariant start <= next <= |data|
        invariant forall k :: start <= k < next ==> data[k] != '\n'
      {
        next := next + 1;
      }
      if next < |data| {
        next := next + 1;
      }
      var line := data[start..next];
      Associate(old(Contents()), mark, line);
      if !ok { return; }
      if data[next - 1] == '\n' {
        atLineStart := true;
      }
      ok := Put(line);
    }

    /** The loop over the lines of a chunk. */
    method AppendStamped(data: string, stamp: string) returns (ok: bool)
      requires Valid()
      modifies this, buf
      ensures Valid() && (buf == old(buf) || fresh(buf))
      ensures old(asked) <= asked && (ok <==> Granted(old(asked), asked))
      ensures ok ==> Contents() == old(Contents()) + Stamped(data, stamp, old(atLineStart))
                     && atLineStart == EndsLine(data, old(atLineStart))
      ensures !ok ==> old(Contents()) <= Contents() <= old(Contents()) + Stamped(data, stamp, old(atLineStart))
    {
      hide Stamped, EndsLine;
      var i := 0;
      ghost var before, done := Contents(), "";
      ghost var ideal := Stamped(data, stamp, atLineStart);
      while i < |data|
        invariant 0 <= i <= |data| && Valid() && (buf == old(buf) || fresh(buf))
        invariant old(asked) <= asked && Granted(old(asked), asked)
        invariant Contents() == before + done
        invariant ideal == done + Stamped(data[i..], stamp, atLineStart)
        invariant EndsLine(data, old(atLineStart)) == EndsLine(data[i..], atLineStart)
      {
        ghost var start, begins, rest := i, atLineStart, data[i..];
        ok, i := AppendLine(data, i, stamp);
        ghost var line, tail := data[start..i], data[i..];
        ghost var piece := (if begins then stamp else "") + line;
        assert rest == line + tail;
        PieceStamped(rest, line, tail, stamp, begins);
        Associate(before, done, piece);
        Associate(done, piece, Stamped(tail, stamp, line[|line| - 1] == '\n'));
        if !ok { return false; }
        done := done + piece;
      }
      NothingLeft(stamp, atLineStart);
      assert data[i..] == "" && done + "" == done;
      return true;
    }
  }

  lemma NothingLeft(stamp: string, atStart: bool)
    ensures Stamped("", stamp, atStart) == "" && EndsLine("", atStart) == atStart
  {}

  /** The first line of what is left: at most one stamp, then the bytes as they are. */
  lemma PieceStamped(rest: string, line: string, tail: string, stamp: string, atStart: bool)
    requires rest == line + tail && line != ""
    requires forall k :: 0 <= k < |line| - 1 ==> line[k] != '\n'
    ensures Stamped(rest, stamp, atStart)
         == ((if atStart then stamp else "") + line) + Stamped(tail, stamp, line[|line| - 1] == '\n')
    ensures EndsLine(rest, atStart) == EndsLine(tail, line[|line| - 1] == '\n')
  {
    hide Stamped;
    StampedConcat(line, tail, stamp, atStart);
    StampedRun(line, stamp);
    StampFirst(line, stamp);
    assert "" + line == line;
    if tail == "" {
      assert rest == line;
    } else {
      assert rest[|rest| - 1] == tail[|tail| - 1];
    }
  }

  lemma StampFirst(line: string, stamp: string)
    requires line != ""
    ensures Stamped(line, stamp, true) == stamp + Stamped(line, stamp, false)
  {
    Associate(stamp, [line[0]], Stamped(line[1..], stamp, line[0] == '\n'));
    assert "" + [line[0]] == [line[0]];
  }
}
