/** How the lines of a hand-edited record are read: note continuations, foreign lines and fences, line breaks. */
module CommitReading {
  import opened Wrappers
  import opened Text
  import opened CommitData
  import opened CommitParser
  import opened CommitPrinter
  import opened CommitLines
  import opened CommitRoundTrip
  import opened CommitDocument
  import opened CommitTheorems

  // ---- reading the same lines elsewhere

  /** Two readings with the same record or the same error; `i` and `j` are places that correspond. */
  predicate Alike(a: Result<Parsed, ParseError>, i: nat, b: Result<Parsed, ParseError>, j: nat) {
    if a.Ok? && b.Ok? then a.value.commit == b.value.commit && a.value.next - i == b.value.next - j
    else a.Err? && b.Err? && a.error == b.error
  }

  lemma {:induction false} FenceEndShift(lines: seq<string>, i: nat, other: seq<string>, j: nat, n: nat)
    requires i <= |lines| && j <= |other| && lines[i..] == other[j..]
    ensures FenceEnd(lines, i, n) - i == FenceEnd(other, j, n) - j
    decreases |lines| - i
  {
    hide Closes;
    assert |lines| - i == |other| - j;
    if i < |lines| {
      assert lines[i] == lines[i..][0] == other[j..][0] == other[j];
      assert lines[i + 1..] == lines[i..][1..] && other[j + 1..] == other[j..][1..];
      FenceEndShift(lines, i + 1, other, j + 1, n);
    }
  }

  lemma SameSuffix(lines: seq<string>, i: nat, other: seq<string>, j: nat, n: nat)
    requires i + n <= |lines| && j <= |other| && lines[i..] == other[j..]
    ensures |lines| - i == |other| - j
    ensures lines[i..i + n] == other[j..j + n] && lines[i + n..] == other[j + n..]
  {
    assert lines[i..][..n] == lines[i..i + n] && other[j..][..n] == other[j..j + n];
    assert lines[i..][n..] == lines[i + n..] && other[j..][n..] == other[j + n..];
  }

  /** What one turn of the inner loop does: the record ends, the fence stays open, or the loop goes on. */
  datatype Turn = Ends | Fails | Goes(next: nat, commit: Commit, pending: string)

  function TurnOf(lines: seq<string>, i: nat, c: Commit, pending: string): (t: Turn)
    requires i <= |lines|
    ensures t.Goes? ==> i < t.next <= |lines|
  {
    if i == |lines| || RevHead(lines[i]).Some? then Ends
    else
      match FenceOf(lines[i])
      case Some(fence) =>
        var end := FenceEnd(lines, i + 1, fence.length);
        if end == |lines| then Fails
        else Goes(end + 1, WithFence(c, fence.tag, Join(lines[i + 1..end], "\n")), "")
      case None =>
        match FieldOf(lines[i])
        case Some(f) => Goes(i + 1, WithField(c, Underscored(f.key), f.value), Underscored(f.key))
        case None => Goes(i + 1, WithOther(c, pending, lines[i]), pending)
  }

  lemma RecordTurn(lines: seq<string>, i: nat, c: Commit, pending: string)
    requires i <= |lines|
    ensures Record(lines, i, c, pending)
         == match TurnOf(lines, i, c, pending)
            case Ends => Ok(Parsed(c, i))
            case Fails => Err(UnterminatedFence)
            case Goes(next, c', pending') => Record(lines, next, c', pending')
  {
    hide RevHead, FenceOf, FieldOf, WithFence, WithField, WithOther, Underscored, Join, FenceEnd;
  }

  lemma TurnShift(lines: seq<string>, i: nat, other: seq<string>, j: nat, c: Commit, pending: string)
    requires i <= |lines| && j <= |other| && lines[i..] == other[j..]
    ensures var t, t' := TurnOf(lines, i, c, pending), TurnOf(other, j, c, pending);
            && (t.Ends? <==> t'.Ends?) && (t.Fails? <==> t'.Fails?)
            && (t.Goes? ==> t.next - i == t'.next - j && t.commit == t'.commit && t.pending == t'.pending)
  {
    hide RevHead, FenceOf, FieldOf, WithFence, WithField, WithOther, Underscored, Join, FenceEnd;
    SameSuffix(lines, i, other, j, 0);
    if i < |lines| {
      SameSuffix(lines, i, other, j, 1);
      assert lines[i] == lines[i..i + 1][0] == other[j..j + 1][0] == other[j];
      var fence := FenceOf(lines[i]);
      if RevHead(lines[i]).None? && fence.Some? {
        FenceEndShift(lines, i + 1, other, j + 1, fence.value.length);
        var end := FenceEnd(lines, i + 1, fence.value.length);
        SameSuffix(lines, i + 1, other, j + 1, end - i - 1);
      }
    }
  }

  /** What a record reads as depends on the lines from there on only. */
  lemma {:induction false} RecordShift(
    lines: seq<string>, i: nat, other: seq<string>, j: nat, c: Commit, pending: string)
    requires i <= |lines| && j <= |other| && lines[i..] == other[j..]
    ensures Alike(Record(lines, i, c, pending), i, Record(other, j, c, pending), j)
    decreases |lines| - i
  {
    hide Record, TurnOf;
    RecordTurn(lines, i, c, pending);
    RecordTurn(other, j, c, pending);
    TurnShift(lines, i, other, j, c, pending);
    var t, t' := TurnOf(lines, i, c, pending), TurnOf(other, j, c, pending);
    if t.Goes? {
      SameSuffix(lines, i, other, j, t.next - i);
      RecordShift(lines, t.next, other, t'.next, t.commit, t.pending);
    }
  }

  // ---- a note over several lines

  /** A line that continues the note before it: indented, and not blank. */
  predicate Indented(line: string) { line != "" && (line[0] == ' ' || line[0] == '\t') && !Blank(line) }

  predicate AllIndented(lines: seq<string>) { forall i :: 0 <= i < |lines| ==> Indented(lines[i]) }

  function Pieces(lines: seq<string>): seq<string> {
    if lines == [] then [] else [Strip(lines[0])] + Pieces(lines[1..])
  }

  /** The note in one line: what its lines hold, with a blank between each two. */
  function OneNote(a: string, more: seq<string>): string {
    Join((if a == "" then [] else [a]) + Pieces(more), " ")
  }

  lemma IndentedIsPlain(line: string)
    requires Indented(line)
    ensures RevHead(line).None? && FenceOf(line).None? && FieldOf(line).None?
    ensures Stripped(Strip(line)) && Strip(line) != ""
  {
    hide Strip;
    StripBlank(line);
    assert Tildes(line) == 0;
  }

  lemma {:induction false} JoinPrefix(a: string, b: string, rest: seq<string>, sep: string)
    ensures Join([a, b] + rest, sep) == Join([a + sep + b] + rest, sep)
  {
    assert ([a, b] + rest)[1..] == [b] + rest;
    if rest == [] {
      assert [b] + rest == [b] && [a + sep + b] + rest == [a + sep + b];
    } else {
      assert ([b] + rest)[1..] == rest && ([a + sep + b] + rest)[1..] == rest;
    }
  }

  /** One more line is one blank and one more piece. */
  lemma GlueStep(a: string, line: string, more: seq<string>)
    requires Stripped(a) && Indented(line)
    ensures var glued := Strip(a + " " + Strip(line));
            Stripped(glued) && OneNote(a, [line] + more) == OneNote(glued, more)
  {
    IndentedIsPlain(line);
    hide Strip, Indented;
    var t := Strip(line);
    assert ([line] + more)[1..] == more;
    var rest := Pieces(more);
    assert Pieces([line] + more) == [t] + rest;
    if a == "" {
      assert a + " " + t == " " + t;
      StripPadded(" ", t);
      StripFixed(t);
      assert [] + ([t] + rest) == [t] + rest;
    } else {
      var whole := a + " " + t;
      assert whole[0] == a[0] && whole[|whole| - 1] == t[|t| - 1];
      StripFixed(whole);
      assert [a] + ([t] + rest) == [a, t] + rest;
      JoinPrefix(a, t, rest, " ");
    }
  }

  lemma OneNoteAlone(a: string)
    ensures OneNote(a, []) == a
  {
    assert [a] + [] == [a];
  }

  lemma NoteStep(lines: seq<string>, i: nat, c: Commit)
    requires i < |lines| && Indented(lines[i])
    ensures Record(lines, i, c, "note")
         == Record(lines, i + 1, c.(note := Strip(c.note + " " + Strip(lines[i]))), "note")
  {
    hide RevHead, FenceOf, FieldOf, Strip, FenceEnd, WithFence, WithField;
    IndentedIsPlain(lines[i]);
  }

  /** Indented lines after a note are part of it. */
  lemma {:induction false} NoteLines(lines: seq<string>, i: nat, k: nat, c: Commit)
    requires i + k <= |lines| && AllIndented(lines[i..i + k]) && Stripped(c.note)
    ensures Record(lines, i, c, "note") == Record(lines, i + k, c.(note := OneNote(c.note, lines[i..i + k])), "note")
    ensures Stripped(OneNote(c.note, lines[i..i + k]))
    decreases k
  {
    hide Indented, Record, OneNote, Stripped, Strip;
    if k == 0 {
      OneNoteAlone(c.note);
      assert lines[i..i + k] == [];
      assert c.(note := c.note) == c;
    } else {
      var more := lines[i + 1..i + k];
      assert lines[i..i + k] == [lines[i]] + more;
      assert Indented(lines[i]) by { assert lines[i] == lines[i..i + k][0]; }
      forall m | 0 <= m < |more| ensures Indented(more[m]) {
        assert more[m] == lines[i..i + k][m + 1];
      }
      NoteStep(lines, i, c);
      GlueStep(c.note, lines[i], more);
      NoteLines(lines, i + 1, k - 1, c.(note := Strip(c.note + " " + Strip(lines[i]))));
    }
  }

  /** A note continued over indented lines reads as the note written in one line. */
  lemma NoteJoined(before: seq<string>, a: string, more: seq<string>, after: seq<string>, c: Commit, pending: string)
    requires Stripped(a) && AllIndented(more)
    ensures var long := before + [FieldLine("note", a)] + more + after;
            var short := before + [FieldLine("note", OneNote(a, more))] + after;
            Alike(Record(long, |before|, c, pending), |before| + 1 + |more|,
                  Record(short, |before|, c, pending), |before| + 1)
  {
    hide Record, FieldLine, OneNote, Indented, Stripped, WithField;
    var i, k := |before|, |more|;
    var long := before + [FieldLine("note", a)] + more + after;
    var note := OneNote(a, more);
    var short := before + [FieldLine("note", note)] + after;
    assert IsKey("note");
    assert long[i + 1..i + 1 + k] == more;
    WordKeys(c, a);
    WordKeys(c, note);
    FieldStep(long, i, c, pending, "note", a);
    NoteLines(long, i + 1, k, c.(note := a));
    FieldStep(short, i, c, pending, "note", note);
    assert long[i + 1 + k..] == after && short[i + 1..] == after;
    RecordShift(long, i + 1 + k, short, i + 1, c.(note := note), "note");
  }

  // ---- lines that mean nothing

  /** Indented lines are nothing when no note is before them. */
  lemma {:induction false} NoNoteLines(lines: seq<string>, i: nat, k: nat, c: Commit, pending: string)
    requires i + k <= |lines| && AllIndented(lines[i..i + k]) && pending != "note"
    ensures Record(lines, i, c, pending) == Record(lines, i + k, c, pending)
    decreases k
  {
    hide Indented, RevHead, FenceOf, FieldOf, FenceEnd, WithFence, WithField;
    if k > 0 {
      assert Indented(lines[i]) by { assert lines[i] == lines[i..i + k][0]; }
      var more := lines[i + 1..i + k];
      forall m | 0 <= m < |more| ensures Indented(more[m]) {
        assert more[m] == lines[i..i + k][m + 1];
      }
      IndentedIsPlain(lines[i]);
      NoNoteLines(lines, i + 1, k - 1, c, pending);
    }
  }

  /** The same lines after any other field change nothing. */
  lemma IgnoredAfterField(
    before: seq<string>, key: string, value: string, more: seq<string>, after: seq<string>, c: Commit, pending: string)
    requires IsKey(key) && Stripped(value) && Underscored(key) != "note" && AllIndented(more)
    ensures var field := FieldLine(key, value);
            Alike(Record(before + [field] + more + after, |before|, c, pending), |before| + 1 + |more|,
                  Record(before + [field] + after, |before|, c, pending), |before| + 1)
  {
    hide Record, FieldLine, Indented, Stripped, WithField, Underscored;
    var i, k := |before|, |more|;
    var long, short := before + [FieldLine(key, value)] + more + after, before + [FieldLine(key, value)] + after;
    assert long[i + 1..i + 1 + k] == more;
    FieldStep(long, i, c, pending, key, value);
    FieldStep(short, i, c, pending, key, value);
    NoNoteLines(long, i + 1, k, WithField(c, Underscored(key), value), Underscored(key));
    assert long[i + 1 + k..] == after && short[i + 1..] == after;
    RecordShift(long, i + 1 + k, short, i + 1, WithField(c, Underscored(key), value), Underscored(key));
  }

  /** A block that opens a fence and is closed by its last line and by none before it. */
  predicate Fenced(block: seq<string>, fence: Fence) {
    && |block| >= 2 && RevHead(block[0]).None? && FenceOf(block[0]) == Some(fence)
    && Closes(block[|block| - 1], fence.length)
    && forall k :: 1 <= k < |block| - 1 ==> !Closes(block[k], fence.length)
  }

  lemma FencedRead(before: seq<string>, block: seq<string>, after: seq<string>, fence: Fence, c: Commit,
      pending: string)
    requires Fenced(block, fence)
    ensures var e := |before| + |block|;
            Record(before + block + after, |before|, c, pending)
            == Record(before + block + after, e, WithFence(c, fence.tag, Join(block[1..|block| - 1], "\n")), "")
  {
    hide RevHead, FenceOf, Closes, WithFence, WithField, WithOther, FieldOf, Join, FenceEnd;
    var lines, i, end := before + block + after, |before|, |before| + |block| - 1;
    assert lines[i] == block[0] && lines[end] == block[|block| - 1];
    forall k | i + 1 <= k < end ensures !Closes(lines[k], fence.length) {
      assert lines[k] == block[k - i];
    }
    FenceEndsAt(lines, i + 1, end, fence.length);
    assert lines[i + 1..end] == block[1..|block| - 1];
  }

  /** And after a fence. */
  lemma IgnoredAfterFence(
    before: seq<string>, block: seq<string>, fence: Fence, more: seq<string>, after: seq<string>,
    c: Commit, pending: string)
    requires Fenced(block, fence) && AllIndented(more)
    ensures Alike(Record(before + block + more + after, |before|, c, pending), |before| + |block| + |more|,
                  Record(before + block + after, |before|, c, pending), |before| + |block|)
  {
    hide Record, Indented, WithFence, Fenced, Join;
    var long, short := before + block + more + after, before + block + after;
    assert long == before + block + (more + after);
    FencedRead(before, block, more + after, fence, c, pending);
    FencedRead(before, block, after, fence, c, pending);
    assert Fenced(block, fence) ==> |block| >= 2 by { FencedLong(block, fence); }
    var e := |before| + |block|;
    var c' := WithFence(c, fence.tag, Join(block[1..|block| - 1], "\n"));
    assert long[e..e + |more|] == more;
    NoNoteLines(long, e, |more|, c', "");
    assert long[e + |more|..] == after && short[e..] == after;
    RecordShift(long, e + |more|, short, e, c', "");
  }

  lemma FencedLong(block: seq<string>, fence: Fence)
    requires Fenced(block, fence)
    ensures |block| >= 2
  {}

  /** A fence of one's own, whatever it holds, is passed over. */
  lemma ForeignFence(
    before: seq<string>, block: seq<string>, fence: Fence, after: seq<string>, c: Commit, pending: string)
    requires Fenced(block, fence) && fence.tag != "msg" && fence.tag != "files"
    ensures Alike(Record(before + block + after, |before|, c, pending), |before| + |block|,
                  Record(before + after, |before|, c, ""), |before|)
  {
    hide Record, Fenced, Join;
    var long, short := before + block + after, before + after;
    FencedLong(block, fence);
    FencedRead(before, block, after, fence, c, pending);
    assert long[|before| + |block|..] == after && short[|before|..] == after;
    RecordShift(long, |before| + |block|, short, |before|, c, "");
  }

  /** A line that is no head, no fence, no field and not indented is passed over, wherever it stands. */
  lemma ForeignLine(before: seq<string>, line: string, after: seq<string>, c: Commit, pending: string)
    requires RevHead(line).None? && FenceOf(line).None? && FieldOf(line).None? && !Indented(line)
    ensures Alike(Record(before + [line] + after, |before|, c, pending), |before| + 1,
                  Record(before + after, |before|, c, pending), |before|)
  {
    hide RevHead, FenceOf, FieldOf, FenceEnd, WithFence, WithField, Strip, Alike;
    var long, short := before + [line] + after, before + after;
    assert long[|before|] == line;
    assert Record(long, |before|, c, pending) == Record(long, |before| + 1, c, pending);
    assert long[|before| + 1..] == after && short[|before|..] == after;
    RecordShift(long, |before| + 1, short, |before|, c, pending);
  }

  /** A field the script does not know is passed over too, but for what is indented after it. */
  lemma ForeignField(before: seq<string>, line: string, after: seq<string>, c: Commit, pending: string)
    requires RevHead(line).None? && FenceOf(line).None? && FieldOf(line).Some?
    requires Underscored(FieldOf(line).value.key)
          !in {"jira", "changelog_ref", "files", "date", "author", "note"}
    ensures var key := Underscored(FieldOf(line).value.key);
            Alike(Record(before + [line] + after, |before|, c, pending), |before| + 1,
                  Record(before + after, |before|, c, key), |before|)
  {
    hide RevHead, FenceOf, FieldOf, FenceEnd, WithFence, Alike, Underscored, ParseRefs;
    var long, short := before + [line] + after, before + after;
    var key := Underscored(FieldOf(line).value.key);
    assert long[|before|] == line;
    assert Record(long, |before|, c, pending) == Record(long, |before| + 1, c, key);
    assert long[|before| + 1..] == after && short[|before|..] == after;
    RecordShift(long, |before| + 1, short, |before|, c, key);
  }

  /** A count that is not a number reads as none. */
  lemma OddCount(c: Commit, value: string)
    ensures WithField(c, "files", value) == c.(fileCount := 0) <==> !AllDigits(value) || ReadNat(value) == 0
    ensures AllDigits(value) ==> WithField(c, "files", value) == c.(fileCount := ReadNat(value))
  {
    hide ParseRefs, ReadNat;
  }

  /** A fence that nothing closes is an error. */
  lemma {:induction false} OpenFence(lines: seq<string>, i: nat, c: Commit, pending: string)
    requires i < |lines| && RevHead(lines[i]).None? && FenceOf(lines[i]).Some?
    requires forall k :: i < k < |lines| ==> !Closes(lines[k], FenceOf(lines[i]).value.length)
    ensures Record(lines, i, c, pending) == Err(UnterminatedFence)
  {
    hide RevHead, FenceOf, Closes;
    NeverCloses(lines, i + 1, FenceOf(lines[i]).value.length);
  }

  lemma {:induction false} NeverCloses(lines: seq<string>, i: nat, n: nat)
    requires i <= |lines| && forall k :: i <= k < |lines| ==> !Closes(lines[k], n)
    ensures FenceEnd(lines, i, n) == |lines|
    decreases |lines| - i
  {
    hide Closes;
    if i < |lines| {
      NeverCloses(lines, i + 1, n);
    }
  }

  // ---- from the head of the record on

  /** Reading from line `h` comes to line `i`, not inside a fence. */
  predicate Reaches(lines: seq<string>, h: nat, i: nat)
    requires h <= |lines|
    decreases |lines| - h
  {
    h == i
    || (h < i && h < |lines| && RevHead(lines[h]).None?
        && match FenceOf(lines[h])
           case None => Reaches(lines, h + 1, i)
           case Some(fence) =>
             var end := FenceEnd(lines, h + 1, fence.length);
             end < |lines| && Reaches(lines, end + 1, i))
  }

  lemma {:induction false} ReachesBound(lines: seq<string>, h: nat, i: nat)
    requires h <= |lines| && Reaches(lines, h, i)
    ensures h <= i <= |lines|
    decreases |lines| - h
  {
    hide RevHead, FenceOf, FenceEnd;
    if h < i {
      var fence := FenceOf(lines[h]);
      ReachesBound(lines, if fence.None? then h + 1 else FenceEnd(lines, h + 1, fence.value.length) + 1, i);
    }
  }

  lemma {:induction false} FenceEndPrefix(a: seq<string>, b: seq<string>, j: nat, i: nat, n: nat)
    requires j <= i <= |a| && i <= |b| && a[..i] == b[..i] && FenceEnd(a, j, n) < i
    ensures FenceEnd(b, j, n) == FenceEnd(a, j, n)
    decreases i - j
  {
    hide Closes;
    assert j < i && a[j] == a[..i][j] == b[..i][j] == b[j];
    if !Closes(a[j], n) {
      FenceEndPrefix(a, b, j + 1, i, n);
    }
  }

  /** Whatever two texts agree on up to line `i` leaves them alike if they are alike from there. */
  lemma {:induction false} AlikeFromHead(
    a: seq<string>, b: seq<string>, h: nat, i: nat, x: nat, y: nat, c: Commit, pending: string)
    requires h <= i <= |a| && i <= |b| && a[..i] == b[..i] && Reaches(a, h, i)
    requires forall c', p' :: Alike(Record(a, i, c', p'), x, Record(b, i, c', p'), y)
    ensures Alike(Record(a, h, c, pending), x, Record(b, h, c, pending), y)
    decreases i - h
  {
    hide RevHead, FenceOf, FieldOf, WithFence, WithField, WithOther, Underscored, Join, FenceEnd, Alike;
    if h < i {
      assert a[h] == a[..i][h] == b[..i][h] == b[h];
      var fence, field := FenceOf(a[h]), FieldOf(a[h]);
      if fence.Some? {
        var end := FenceEnd(a, h + 1, fence.value.length);
        ReachesBound(a, end + 1, i);
        FenceEndPrefix(a, b, h + 1, i, fence.value.length);
        Subslice(a, 0, i, h + 1, end);
        Subslice(b, 0, i, h + 1, end);
        assert a[0..i] == a[..i] && b[0..i] == b[..i];
        AlikeFromHead(a, b, end + 1, i, x, y, WithFence(c, fence.value.tag, Join(a[h + 1..end], "\n")), "");
      } else if field.Some? {
        var key := Underscored(field.value.key);
        AlikeFromHead(a, b, h + 1, i, x, y, WithField(c, key, field.value.value), key);
      } else {
        AlikeFromHead(a, b, h + 1, i, x, y, WithOther(c, pending, a[h]), pending);
      }
    }
  }

  /** A record whose note goes on over indented lines reads as the one with the note in one line. */
  lemma NoteInRecord(
    before: seq<string>, a: string, more: seq<string>, after: seq<string>, h: nat, c: Commit, pending: string)
    requires Stripped(a) && AllIndented(more) && h <= |before|
    requires Reaches(before + [FieldLine("note", a)] + more + after, h, |before|)
    ensures var long := before + [FieldLine("note", a)] + more + after;
            var short := before + [FieldLine("note", OneNote(a, more))] + after;
            Alike(Record(long, h, c, pending), |before| + 1 + |more|, Record(short, h, c, pending), |before| + 1)
  {
    hide Record, FieldLine, OneNote, Indented, Stripped, Reaches, Alike;
    var long := before + [FieldLine("note", a)] + more + after;
    var short := before + [FieldLine("note", OneNote(a, more))] + after;
    assert long[..|before|] == before == short[..|before|];
    forall c', p'
      ensures Alike(Record(long, |before|, c', p'), |before| + 1 + |more|, Record(short, |before|, c', p'),
                |before| + 1)
    {
      NoteJoined(before, a, more, after, c', p');
    }
    AlikeFromHead(long, short, h, |before|, |before| + 1 + |more|, |before| + 1, c, pending);
  }

  lemma NoteFile(rev: nat, a: string, more: seq<string>)
    requires Plain(a) && forall i :: 0 <= i < |more| ==> Plain(more[i])
    ensures var lines := ["## r" + ShowNat(rev), FieldLine("note", a)] + more;
            Split(Join(lines, "\n"), '\n') == lines && '\r' !in Join(lines, "\n")
  {
    hide FieldLine, Join, Split, ShowNat;
    var lines := ["## r" + ShowNat(rev), FieldLine("note", a)] + more;
    NumberStripped(rev);
    KeyPlain("note");
    FieldLinePlain("note", a);
    forall i | 0 <= i < |lines| ensures Plain(lines[i]) {
      if i > 1 { assert lines[i] == more[i - 2]; }
    }
    SplitJoin(lines, '\n');
    JoinFree(lines, "\n", '\r');
  }

  /** A file of one record that holds nothing but such a note. */
  lemma NoteRead(rev: nat, a: string, more: seq<string>)
    requires Stripped(a) && Plain(a) && AllIndented(more) && forall i :: 0 <= i < |more| ==> Plain(more[i])
    ensures Parse(Join(["## r" + ShowNat(rev), FieldLine("note", a)] + more, "\n"))
         == Ok(Data([], map[], [BlankCommit(rev).(note := OneNote(a, more))]))
  {
    hide RevHead, NewestFirst, FieldLine, HeaderOf, Record, OneNote, AllIndented, Stripped, Join, Split, Plain,
      ShowNat, WithField;
    var lines := ["## r" + ShowNat(rev), FieldLine("note", a)] + more;
    NoteFile(rev, a, more);
    HeadRecognised(rev);
    NoteRecord(rev, a, more);
    var c := BlankCommit(rev).(note := OneNote(a, more));
    assert Records(lines, |lines|, {rev}) == Ok([]);
    assert Records(lines, 0, {}) == Ok([c] + []);
    FirstHeadAt(lines, 0, 0);
    assert lines[..0] == [];
    HeaderBlank([], map[]);
    NewestFirstFixed([c]);
    assert [c] + [] == [c];
  }

  lemma NoteRecord(rev: nat, a: string, more: seq<string>)
    requires Stripped(a) && AllIndented(more)
    ensures var lines := ["## r" + ShowNat(rev), FieldLine("note", a)] + more;
            Record(lines, 1, BlankCommit(rev), "")
            == Ok(Parsed(BlankCommit(rev).(note := OneNote(a, more)), |lines|))
  {
    hide RevHead, FieldLine, Record, OneNote, AllIndented, Stripped, ShowNat, WithField;
    var lines := ["## r" + ShowNat(rev), FieldLine("note", a)] + more;
    assert IsKey("note");
    var c := BlankCommit(rev).(note := a);
    WordKeys(BlankCommit(rev), a);
    FieldStep(lines, 1, BlankCommit(rev), "", "note", a);
    assert lines[2..2 + |more|] == more;
    NoteLines(lines, 2, |more|, c);
    var c' := BlankCommit(rev).(note := OneNote(a, more));
    assert c.(note := OneNote(a, more)) == c';
    RecordEnds(lines, |lines|, c', "note");
  }

  // ---- CRLF

  lemma {:induction false} CrLfStep(a: string, b: string)
    requires '\r' !in a
    ensures ReplaceCrLf(a + "\r\n" + b) == a + "\n" + ReplaceCrLf(b)
  {
    if a == "" {
      assert (a + "\r\n" + b)[2..] == b;
    } else {
      assert (a + "\r\n" + b)[1..] == a[1..] + "\r\n" + b;
      CrLfStep(a[1..], b);
    }
  }

  lemma {:induction false} CrLfLines(lines: seq<string>)
    requires forall i :: 0 <= i < |lines| ==> '\r' !in lines[i]
    ensures ReplaceCrLf(Join(lines, "\r\n")) == Join(lines, "\n")
  {
    if |lines| > 1 {
      CrLfStep(lines[0], Join(lines[1..], "\r\n"));
      CrLfLines(lines[1..]);
    }
  }

  /** A file with CRLF line breaks reads as the same lines with LF. */
  lemma CrLfAlike(lines: seq<string>)
    requires forall i :: 0 <= i < |lines| ==> '\r' !in lines[i]
    ensures Parse(Join(lines, "\r\n")) == Parse(Join(lines, "\n"))
  {
    hide ParseLines, Split;
    CrLfLines(lines);
    JoinFree(lines, "\n", '\r');
  }
}
