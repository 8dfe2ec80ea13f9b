/** Which texts survive loading and saving byte for byte, told from the text alone. */
module CommitCanonical {
  import opened Wrappers
  import opened Text
  import opened CommitData
  import opened CommitParser
  import opened CommitPrinter
  import opened CommitLines
  import opened CommitRoundTrip
  import opened CommitDocument
  import opened CommitClean
  import opened CommitTheorems
  import opened CommitSpelling

  // ---- the test

  /** Line breaks are LF; a spelled top, then spelled records whose revisions fall. */
  predicate Canonical(text: string) {
    && '\r' !in text
    && var lines := Split(text, '\n');
       var n := FirstHead(lines, 0);
       PreambleSpelled(lines[..n]) && GapSpelled(lines[..n], n == |lines|) && RecordsSpelled(lines, n, None)
  }

  /** Each header line is spelled `- key: value`; lines of one key agree; integers are plain decimals. */
  predicate PreambleSpelled(lines: seq<string>) {
    && (forall i :: 0 <= i < |lines| && FieldOf(lines[i]).Some? ==> HeaderLineSpelled(lines[i]))
    && KeysAgree(lines)
  }

  predicate HeaderLineSpelled(line: string)
    requires FieldOf(line).Some?
  {
    var f := FieldOf(line).value;
    ValueIn(line, f.key) == Some(f.value) && (IsIntKey(Underscored(f.key)) ==> IntSpelled(f.value))
  }

  predicate KeysAgree(lines: seq<string>) {
    forall i, j :: 0 <= i < j < |lines| && FieldOf(lines[i]).Some? && FieldOf(lines[j]).Some? ==>
      Agree(FieldOf(lines[i]).value, FieldOf(lines[j]).value)
  }

  predicate Agree(f: Field, g: Field) { Underscored(f.key) == Underscored(g.key) ==> f.value == g.value }

  /**
    * The lines above the records end with one empty line, two if there are no records, one more if nothing else is
    * there.
    */
  predicate GapSpelled(top: seq<string>, alone: bool) {
    var gap := if alone then 2 else 1;
    var n := |top| - gap;
    && n > 0 && (forall i :: n <= i < |top| ==> top[i] == "")
    && (if n == 1 then !Blank(top[0]) || top[0] == "" else !Blank(top[n - 1]))
  }

  predicate RecordsSpelled(lines: seq<string>, i: nat, above: Option<nat>)
    requires i <= |lines|
    decreases |lines| - i
  {
    i == |lines|
    || var end := RecordEnd(lines, i);
       && end.Some?
       && (above.Some? ==> HeadRev(lines[i]) < above.value)
       && RecordsSpelled(lines, end.value, Some(HeadRev(lines[i])))
  }

  /** Where the record spelled from line `i` on ends. */
  function RecordEnd(lines: seq<string>, i: nat): (r: Option<nat>)
    requires i <= |lines|
    ensures r.Some? ==> i + 11 < r.value <= |lines| && HeadSpelled(lines[i])
  {
    if i + 9 <= |lines| && FieldsSpelled(lines[i..i + 9]) then
      match MessageEnd(lines, i + 8)
      case None => None
      case Some(end) => if end + 1 < |lines| && lines[end + 1] == "" then FilesEnd(lines, end + 2) else None
    else None
  }

  /** The head line, the six fields, an empty line and the opening of the message. */
  predicate FieldsSpelled(head: seq<string>)
    requires |head| == 9
  {
    && HeadSpelled(head[0])
    && RefsLine(head[1], "jira") && RefsLine(head[2], "changelog-ref")
    && ValueIn(head[3], "date").Some? && ValueIn(head[4], "author").Some?
    && CountLine(head[5]) && ValueIn(head[6], "note").Some?
    && head[7] == ""
  }

  predicate RefsLine(line: string, key: string) { ValueIn(line, key).Some? && RefsSpelled(ValueIn(line, key).value) }

  predicate CountLine(line: string) { ValueIn(line, "files").Some? && DecimalSpelled(ValueIn(line, "files").value) }

  /**
    * The closing fence of the message opened in line `i`: a copy of the tildes there, and no more of them than it
    * takes.
    */
  function MessageEnd(lines: seq<string>, i: nat): (r: Option<nat>)
    requires i < |lines|
    ensures r.Some? ==> i + 1 < r.value < |lines|
  {
    var n := Tildes(lines[i]);
    var end := FenceEnd(lines, i + 1, n);
    if && lines[i][n..] == "msg" && i + 1 < end < |lines| && lines[end] == lines[i][..n]
       && n == LeastFence(lines[i + 1..end]) && NoOuterBreaks(lines[i + 1..end])
    then Some(end)
    else None
  }

  /** Three tildes, or one more than the longest line of tildes. */
  function LeastFence(body: seq<string>): nat {
    if LongestTildes(body) < 2 then 3 else LongestTildes(body) + 1
  }

  predicate NoOuterBreaks(body: seq<string>)
    requires body != []
  {
    |body| == 1 || (body[0] != "" && body[|body| - 1] != "")
  }

  /** The end of the file list that starts in line `i`, if one starts there. */
  function FilesEnd(lines: seq<string>, i: nat): (r: Option<nat>)
    requires i <= |lines|
    ensures r.Some? ==> i <= r.value <= |lines|
  {
    if i == |lines| || lines[i] != "~~~files" then Some(i)
    else
      var end := FenceEnd(lines, i + 1, 3);
      if && i + 1 < end && end + 1 < |lines| && lines[end] == "~~~" && lines[end + 1] == ""
         && ListingSpelled(lines[i + 1..end])
      then Some(end + 2)
      else None
  }

  /** Paths, the last line possibly the number of those left out. */
  predicate ListingSpelled(body: seq<string>)
    requires body != []
  {
    && (forall i :: 0 <= i < |body| - 1 ==> FileSpelled(body[i]))
    && (FileSpelled(body[|body| - 1]) || CountSpelled(body[|body| - 1]))
  }

  // ---- the listing

  lemma ListingShown(l: Listing)
    requires GoodFiles(l.files) && ListingLines(l) != []
    ensures ListingSpelled(ListingLines(l))
  {
    hide GoodFile, FileSpelled, CountSpelled, TruncLine;
    var body := ListingLines(l);
    forall i | 0 <= i < |l.files| ensures FileSpelled(body[i]) {
      FileExact(l.files[i]);
    }
    if l.truncated > 0 {
      CountExact(l.truncated);
      assert body[|body| - 1] == TruncLine(l.truncated);
    }
  }

  function FilesIn(lines: seq<string>): (files: seq<FileEntry>)
    requires forall i :: 0 <= i < |lines| ==> FileSpelled(lines[i])
  {
    seq(|lines|, i requires 0 <= i < |lines| => FileIn(lines[i]))
  }

  function ListingIn(body: seq<string>): Listing
    requires body != [] && ListingSpelled(body)
  {
    var n := |body| - 1;
    if CountSpelled(body[n]) then Listing(FilesIn(body[..n]), CountIn(body[n])) else Listing(FilesIn(body), 0)
  }

  lemma FilesInRead(lines: seq<string>)
    requires AllPlain(lines) && forall i :: 0 <= i < |lines| ==> FileSpelled(lines[i])
    ensures GoodFiles(FilesIn(lines)) && FileLines(FilesIn(lines)) == lines
  {
    hide GoodFile, FileSpelled, FileIn, Plain;
    var files := FilesIn(lines);
    forall i | 0 <= i < |lines| ensures GoodFile(files[i]) && FileLines(files)[i] == lines[i] {
      FileRead(lines[i]);
    }
  }

  lemma ListingInRead(body: seq<string>)
    requires body != [] && ListingSpelled(body) && AllPlain(body)
    ensures GoodFiles(ListingIn(body).files) && ListingLines(ListingIn(body)) == body
  {
    hide GoodFile, FileSpelled, CountSpelled, TruncLine, FilesIn, Plain;
    var n := |body| - 1;
    if CountSpelled(body[n]) {
      FilesInRead(body[..n]);
      CountRead(body[n]);
      assert body == body[..n] + [body[n]];
    } else {
      FilesInRead(body);
      assert body + [] == body;
    }
  }

  // ---- the file list of a record

  lemma FilesShown(lines: seq<string>, i: nat, c: Commit)
    requires GoodCommit(c)
    requires var tail := TailLines(c)[2..]; i + |tail| <= |lines| && lines[i..i + |tail|] == tail
    requires var j := i + |TailLines(c)[2..]|; j < |lines| ==> HeadSpelled(lines[j])
    ensures FilesEnd(lines, i) == Some(i + |TailLines(c)[2..]|)
  {
    hide FenceLength, GoodRefs, GoodMsg, GoodFile, ListingLines, GoodWord, FenceEnd, ListingSpelled, HeadSpelled,
      Closes, PlainStart;
    var tail := TailLines(c)[2..];
    if c.files != [] || c.truncated > 0 {
      var l := Listing(c.files, c.truncated);
      var body := ListingLines(l);
      var end := i + 1 + |body|;
      assert tail == ["~~~files"] + body + ["~~~", ""];
      assert tail[0] == "~~~files" && tail[1..1 + |body|] == body && tail[1 + |body|] == "~~~"
          && tail[2 + |body|] == "";
      Subslice(lines, i, |tail|, 1, 1 + |body|);
      assert lines[i] == lines[i..i + |tail|][0];
      assert lines[end] == lines[i..i + |tail|][1 + |body|];
      assert lines[end + 1] == lines[i..i + |tail|][2 + |body|];
      NonEmptyListing(l);
      ListingShown(l);
      ListingCloses(lines, i, l);
    } else {
      assert tail == [];
      if i < |lines| {
        NoListing(lines[i]);
      }
    }
  }

  lemma NoListing(line: string)
    requires HeadSpelled(line)
    ensures line != "~~~files"
  {
    assert line[0] == line[..4][0];
  }

  lemma ListingCloses(lines: seq<string>, i: nat, l: Listing)
    requires GoodFiles(l.files)
    requires var end := i + 1 + |ListingLines(l)|;
             end < |lines| && lines[i + 1..end] == ListingLines(l) && lines[end] == "~~~"
    ensures FenceEnd(lines, i + 1, 3) == i + 1 + |ListingLines(l)|
  {
    hide ListingLines, GoodFile, FenceEnd, Closes;
    var end := i + 1 + |ListingLines(l)|;
    ListingPlain(l);
    assert Fenceline(3) == "~~~";
    FencelineCloses(3);
    forall k | i + 1 <= k < end ensures !Closes(lines[k], 3) {
      assert lines[k] == lines[i + 1..end][k - i - 1];
      NotTilde(lines[k], 3);
    }
    FenceEndsAt(lines, i + 1, end, 3);
  }

  /** The file list from line `i` on. */
  function FilesFrom(lines: seq<string>, i: nat): Listing
    requires i <= |lines| && FilesEnd(lines, i).Some?
  {
    if i == |lines| || lines[i] != "~~~files" then Listing([], 0)
    else ListingIn(lines[i + 1..FenceEnd(lines, i + 1, 3)])
  }

  lemma FilesFromRead(lines: seq<string>, i: nat, c: Commit)
    requires i <= |lines| && AllPlain(lines) && FilesEnd(lines, i).Some?
    requires Listing(c.files, c.truncated) == FilesFrom(lines, i)
    ensures GoodFiles(c.files) && TailLines(c)[2..] == lines[i..FilesEnd(lines, i).value]
  {
    hide FenceLength, ListingLines, FenceEnd, ListingSpelled, ListingIn, Plain, GoodFile;
    if i < |lines| && lines[i] == "~~~files" {
      var end := FenceEnd(lines, i + 1, 3);
      var body := lines[i + 1..end];
      ListingInRead(body);
      if c.files == [] && c.truncated == 0 {
        EmptyListing();
        assert false;
      }
      assert lines[i..end + 2] == [lines[i]] + body + [lines[end], lines[end + 1]];
      assert TailLines(c)[2..] == ["~~~files"] + body + ["~~~", ""];
    } else {
      assert TailLines(c)[2..] == [] == lines[i..i];
    }
  }

  lemma EmptyListing()
    ensures ListingLines(Listing([], 0)) == []
  {}

  // ---- the message

  lemma MessageShown(lines: seq<string>, i: nat, msg: string)
    requires GoodMsg(msg)
    requires var body := Split(msg, '\n'); i + |body| + 2 <= |lines| && lines[i + 1..i + 1 + |body|] == body
    requires var n := FenceLength(msg);
             lines[i] == Fenceline(n) + "msg" && lines[i + 1 + |Split(msg, '\n')|] == Fenceline(n)
    ensures MessageEnd(lines, i) == Some(i + 1 + |Split(msg, '\n')|)
  {
    hide Closes, LongestTildes, Split, FenceEnd, GoodMsg, NoOuterBreaks;
    var body, n := Split(msg, '\n'), FenceLength(msg);
    var end := i + 1 + |body|;
    TildesOf(n, "msg");
    assert lines[i][n..] == "msg" && lines[i][..n] == Fenceline(n);
    FencelineCloses(n);
    forall k | i < k < end ensures !Closes(lines[k], n) {
      assert lines[k] == lines[i + 1..end][k - i - 1];
      if Closes(body[k - i - 1], n) {
        LongestBounds(body, k - i - 1, n);
      }
    }
    FenceEndsAt(lines, i + 1, end, n);
    MessageBreaks(msg);
  }

  lemma MessageBreaks(msg: string)
    ensures GoodMsg(msg) ==> NoOuterBreaks(Split(msg, '\n'))
  {
    var body := Split(msg, '\n');
    JoinSplit(msg, '\n');
    hide Split;
    if |body| > 1 {
      var last := |body| - 1;
      assert body == body[..last] + [body[last]];
      JoinAppend(body[..last], [body[last]], "\n");
      assert msg == Join(body[..last], "\n") + "\n" + body[last];
      assert msg == body[0] + "\n" + Join(body[1..], "\n");
    }
  }

  lemma MessageJoined(body: seq<string>)
    requires body != [] && AllPlain(body) && NoOuterBreaks(body)
    ensures GoodMsg(Join(body, "\n")) && Split(Join(body, "\n"), '\n') == body
  {
    var last := |body| - 1;
    var msg := Join(body, "\n");
    SplitJoin(body, '\n');
    JoinFree(body, "\n", '\r');
    if last > 0 {
      assert body == body[..last] + [body[last]];
      JoinAppend(body[..last], [body[last]], "\n");
      assert msg == Join(body[..last], "\n") + "\n" + body[last];
      assert msg == body[0] + "\n" + Join(body[1..], "\n");
      assert msg[0] == body[0][0] && msg[|msg| - 1] == body[last][|body[last]| - 1];
    } else {
      assert msg == body[0];
    }
  }

  lemma MessageRead(lines: seq<string>, i: nat)
    requires i < |lines| && AllPlain(lines) && MessageEnd(lines, i).Some?
    ensures var end := MessageEnd(lines, i).value;
            var msg := Join(lines[i + 1..end], "\n");
            && GoodMsg(msg) && Split(msg, '\n') == lines[i + 1..end]
            && lines[i] == Fenceline(FenceLength(msg)) + "msg" && lines[end] == Fenceline(FenceLength(msg))
  {
    hide Split, LongestTildes, FenceEnd, Join, GoodMsg, Plain;
    var end := MessageEnd(lines, i).value;
    var body := lines[i + 1..end];
    var n := Tildes(lines[i]);
    MessageJoined(body);
    assert lines[i][..n] == Fenceline(n);
    assert lines[i] == lines[i][..n] + lines[i][n..];
  }

  // ---- the fields

  lemma FieldsShown(c: Commit)
    requires GoodCommit(c) && !Shouted(c.jira) && !Shouted(c.changelogRef)
    ensures FieldsSpelled(HeadLines(c)) && HeadRev(HeadLines(c)[0]) == c.rev
  {
    hide FieldLine, FormatRefs, RefsSpelled, ValueIn, HeadSpelled, HeadRev, GoodRefs, GoodMsg, GoodFiles, FenceLength,
      ShowNat, Stripped;
    var head := HeadLines(c);
    HeadShown(c.rev);
    RefsRecognised(c.jira);
    RefsRecognised(c.changelogRef);
    RefsShown(c.jira);
    RefsShown(c.changelogRef);
    NumberStripped(c.fileCount);
    DecimalShown(c.fileCount);
    ValueInExact(head[1], "jira", FormatRefs(c.jira));
    ValueInExact(head[2], "changelog-ref", FormatRefs(c.changelogRef));
    ValueInExact(head[3], "date", c.date);
    ValueInExact(head[4], "author", c.author);
    ValueInExact(head[5], "files", ShowNat(c.fileCount));
    ValueInExact(head[6], "note", c.note);
  }

  /** The record behind nine spelled lines, the message and the list. */
  function RecordIn(head: seq<string>, msg: string, l: Listing): Commit
    requires |head| == 9 && FieldsSpelled(head)
  {
    Commit(HeadRev(head[0]), RefsIn(ValueIn(head[1], "jira").value), RefsIn(ValueIn(head[2], "changelog-ref").value),
           ValueIn(head[3], "date").value, ValueIn(head[4], "author").value, ReadNat(ValueIn(head[5], "files").value),
           ValueIn(head[6], "note").value, msg, l.files, l.truncated)
  }

  lemma RefsLineRead(line: string, key: string)
    requires RefsLine(line, key) && Plain(line)
    ensures var refs := RefsIn(ValueIn(line, key).value);
            GoodRefs(refs) && !Shouted(refs) && line == FieldLine(key, FormatRefs(refs))
  {
    hide ValueIn, RefsSpelled, RefsIn, FieldLine, GoodRefs, FormatRefs;
    ValueInShape(line, key);
    RefsRead(ValueIn(line, key).value);
  }

  lemma FieldsRead(head: seq<string>, msg: string, l: Listing)
    requires |head| == 9 && FieldsSpelled(head) && AllPlain(head)
    requires GoodMsg(msg) && GoodFiles(l.files) && head[8] == Fenceline(FenceLength(msg)) + "msg"
    ensures var c := RecordIn(head, msg, l);
            GoodCommit(c) && !Shouted(c.jira) && !Shouted(c.changelogRef) && HeadLines(c) == head
  {
    hide FieldLine, FormatRefs, ValueIn, HeadSpelled, HeadRev, GoodRefs, GoodMsg, GoodFiles, FenceLength, ShowNat,
      Stripped, RefsLine, RefsIn, Shouted, Plain;
    var c := RecordIn(head, msg, l);
    HeadRead(head[0]);
    RefsLineRead(head[1], "jira");
    RefsLineRead(head[2], "changelog-ref");
    ValueInShape(head[3], "date");
    ValueInShape(head[4], "author");
    ValueInShape(head[5], "files");
    ValueInShape(head[6], "note");
    DecimalRead(ValueIn(head[5], "files").value);
    var h := HeadLines(c);
    assert h[0] == head[0] && h[1] == head[1] && h[2] == head[2] && h[3] == head[3] && h[4] == head[4];
    assert h[5] == head[5] && h[6] == head[6] && h[7] == head[7] && h[8] == head[8];
  }

  // ---- one record

  /** Where the parts of a printed record lie. */
  lemma RecordParts(lines: seq<string>, i: nat, c: Commit)
    requires i + |CommitLinesOf(c)| <= |lines| && lines[i..i + |CommitLinesOf(c)|] == CommitLinesOf(c)
    ensures var end, next := i + 9 + |Split(c.msg, '\n')|, i + |CommitLinesOf(c)|;
            && end + 2 <= next && lines[i..i + 9] == HeadLines(c) && lines[i + 9..end] == Split(c.msg, '\n')
            && lines[i] == HeadLines(c)[0] && lines[i + 8] == HeadLines(c)[8]
            && lines[end] == TailLines(c)[0] && lines[end + 1] == TailLines(c)[1]
            && lines[end + 2..next] == TailLines(c)[2..] && next == end + 2 + |TailLines(c)[2..]|
  {
    hide Split, HeadLines, TailLines;
    var n, head, body, tail := |CommitLinesOf(c)|, HeadLines(c), Split(c.msg, '\n'), TailLines(c);
    HeadShape(c);
    TailShape(c);
    var all := lines[i..i + n];
    assert all == head + body + tail;
    assert all[0..9] == head && all[9..9 + |body|] == body && all[11 + |body|..n] == tail[2..];
    Subslice(lines, i, n, 0, 9);
    Subslice(lines, i, n, 9, 9 + |body|);
    Subslice(lines, i, n, 11 + |body|, n);
    assert lines[i] == all[0] && lines[i + 8] == all[8];
    assert lines[i + 9 + |body|] == all[9 + |body|] && lines[i + 10 + |body|] == all[10 + |body|];
  }

  lemma RecordShown(lines: seq<string>, i: nat, c: Commit)
    requires GoodCommit(c) && !Shouted(c.jira) && !Shouted(c.changelogRef)
    requires i + |CommitLinesOf(c)| <= |lines| && lines[i..i + |CommitLinesOf(c)|] == CommitLinesOf(c)
    requires var j := i + |CommitLinesOf(c)|; j < |lines| ==> HeadSpelled(lines[j])
    ensures RecordEnd(lines, i) == Some(i + |CommitLinesOf(c)|) && HeadRev(lines[i]) == c.rev
  {
    hide Split, GoodRefs, GoodWord, GoodFiles, GoodMsg, FenceLength, HeadSpelled, HeadRev, Shouted, FieldsSpelled,
      FilesEnd, MessageEnd, HeadLines, TailLines, CommitLinesOf;
    RecordParts(lines, i, c);
    HeadShape(c);
    TailShape(c);
    FieldsShown(c);
    MessageShown(lines, i + 8, c.msg);
    FilesShown(lines, i + 11 + |Split(c.msg, '\n')|, c);
  }

  /** The record spelled from line `i` on. */
  function RecordFrom(lines: seq<string>, i: nat): Commit
    requires i <= |lines| && RecordEnd(lines, i).Some?
  {
    var end := MessageEnd(lines, i + 8).value;
    RecordIn(lines[i..i + 9], Join(lines[i + 9..end], "\n"), FilesFrom(lines, end + 2))
  }

  lemma RecordFromRead(lines: seq<string>, i: nat)
    requires i <= |lines| && AllPlain(lines) && RecordEnd(lines, i).Some?
    ensures var c := RecordFrom(lines, i);
            && GoodCommit(c) && !Shouted(c.jira) && !Shouted(c.changelogRef) && c.rev == HeadRev(lines[i])
            && CommitLinesOf(c) == lines[i..RecordEnd(lines, i).value]
  {
    hide Split, GoodRefs, GoodWord, GoodFiles, GoodMsg, FenceLength, HeadSpelled, HeadRev, Shouted, FieldsSpelled,
      FilesEnd, FilesFrom, MessageEnd, HeadLines, Plain, Join, RefsIn, ValueIn;
    var c := RecordFrom(lines, i);
    var end, next := MessageEnd(lines, i + 8).value, RecordEnd(lines, i).value;
    MessageRead(lines, i + 8);
    FilesFromRead(lines, end + 2, c);
    FieldsRead(lines[i..i + 9], c.msg, Listing(c.files, c.truncated));
    TailShape(c);
    hide TailLines;
    var tail := TailLines(c);
    assert tail == [tail[0], tail[1]] + tail[2..];
    assert lines[end..next] == [lines[end], lines[end + 1]] + lines[end + 2..next];
    assert lines[i..next] == lines[i..i + 9] + lines[i + 9..end] + lines[end..next];
  }

  // ---- all records

  lemma {:induction false} RecordsShown(lines: seq<string>, i: nat, cs: seq<Commit>, above: Option<nat>)
    requires i <= |lines| && lines[i..] == AllLines(cs)
    requires AllGood(cs) && NoneShouted(cs) && Descending(cs)
    requires cs != [] && above.Some? ==> cs[0].rev < above.value
    ensures RecordsSpelled(lines, i, above)
    decreases |cs|
  {
    hide GoodCommit, Shouted, CommitLinesOf, RecordEnd, HeadSpelled, HeadRev;
    if cs != [] {
      var c := cs[0];
      var j := i + |CommitLinesOf(c)|;
      FirstLine(c);
      assert lines[i..j] == lines[i..][..j - i];
      assert lines[j..] == lines[i..][j - i..];
      if j < |lines| {
        FirstLine(cs[1]);
        assert lines[j] == lines[j..][0];
        HeadShown(cs[1].rev);
      }
      RecordShown(lines, i, c);
      RecordsShown(lines, j, cs[1..], Some(c.rev));
    }
  }

  /** The records spelled from line `i` on. */
  function RecordsFrom(lines: seq<string>, i: nat, above: Option<nat>): seq<Commit>
    requires i <= |lines| && RecordsSpelled(lines, i, above)
    decreases |lines| - i
  {
    if i == |lines| then []
    else [RecordFrom(lines, i)] + RecordsFrom(lines, RecordEnd(lines, i).value, Some(HeadRev(lines[i])))
  }

  predicate AllBelow(cs: seq<Commit>, above: Option<nat>) {
    above.Some? ==> forall i :: 0 <= i < |cs| ==> cs[i].rev < above.value
  }

  lemma {:induction false} RecordsFromRead(lines: seq<string>, i: nat, above: Option<nat>)
    requires i <= |lines| && AllPlain(lines) && RecordsSpelled(lines, i, above)
    ensures var cs := RecordsFrom(lines, i, above);
            AllGood(cs) && NoneShouted(cs) && Descending(cs) && AllBelow(cs, above) && AllLines(cs) == lines[i..]
    decreases |lines| - i
  {
    hide GoodCommit, Shouted, CommitLinesOf, RecordEnd, HeadSpelled, HeadRev, RecordFrom, Plain;
    if i < |lines| {
      var c, next := RecordFrom(lines, i), RecordEnd(lines, i).value;
      RecordFromRead(lines, i);
      RecordsFromRead(lines, next, Some(HeadRev(lines[i])));
      assert lines[i..] == lines[i..next] + lines[next..];
    }
  }

  // ---- the top

  lemma {:induction false} HeaderUntouched(lines: seq<string>, acc: map<string, HeaderValue>, key: string)
    requires HeaderOf(lines, acc).Ok?
    requires forall i :: 0 <= i < |lines| && FieldOf(lines[i]).Some? ==> Underscored(FieldOf(lines[i]).value.key) != key
    ensures var r := HeaderOf(lines, acc).value; (key in r <==> key in acc) && (key in acc ==> r[key] == acc[key])
  {
    hide FieldOf, Underscored, HeaderValueOf;
    if lines != [] {
      HeaderUntouched(lines[1..], WithHeaderLine(acc, lines[0]).value, key);
    }
  }

  /** Where the lines of one key agree, the header holds the value of each. */
  lemma {:induction false} HeaderHolds(lines: seq<string>, acc: map<string, HeaderValue>, i: nat)
    requires KeysAgree(lines) && HeaderOf(lines, acc).Ok? && i < |lines| && FieldOf(lines[i]).Some?
    ensures var key := Underscored(FieldOf(lines[i]).value.key);
            var r := HeaderOf(lines, acc).value;
            key in r && HeaderValueOf(key, FieldOf(lines[i]).value.value) == Ok(r[key])
  {
    hide FieldOf, Underscored, HeaderValueOf;
    var h := WithHeaderLine(acc, lines[0]).value;
    assert KeysAgree(lines[1..]);
    if i > 0 {
      HeaderHolds(lines[1..], h, i - 1);
    } else {
      var f := FieldOf(lines[0]).value;
      var key := Underscored(f.key);
      if j :| 0 < j < |lines| && FieldOf(lines[j]).Some? && Underscored(FieldOf(lines[j]).value.key) == key {
        assert Agree(f, FieldOf(lines[j]).value);
        HeaderHolds(lines[1..], h, j - 1);
      } else {
        HeaderUntouched(lines[1..], h, key);
      }
    }
  }

  lemma SpelledValue(line: string)
    requires FieldOf(line).Some? && HeaderLineSpelled(line)
    ensures var f := FieldOf(line).value;
            var v := HeaderValueOf(Underscored(f.key), f.value);
            v.Ok? && ShowHeader(v.value) == f.value && line == FieldLine(f.key, f.value)
  {
    hide FieldOf, Underscored, ValueIn, FieldLine, IntOf, ShowInt, IntSpelled;
    var f := FieldOf(line).value;
    ValueInShape(line, f.key);
    if IsIntKey(Underscored(f.key)) {
      IntRead(f.value);
    }
  }

  lemma {:induction false} SpelledHeader(lines: seq<string>, acc: map<string, HeaderValue>)
    requires forall i :: 0 <= i < |lines| && FieldOf(lines[i]).Some? ==> HeaderLineSpelled(lines[i])
    ensures HeaderOf(lines, acc).Ok?
  {
    hide FieldOf, Underscored, HeaderLineSpelled, HeaderValueOf;
    if lines != [] {
      if FieldOf(lines[0]).Some? {
        SpelledValue(lines[0]);
      }
      SpelledHeader(lines[1..], WithHeaderLine(acc, lines[0]).value);
    }
  }

  lemma RefreshSpelled(lines: seq<string>)
    requires PreambleSpelled(lines)
    ensures HeaderOf(lines, map[]).Ok? && Refresh(lines, HeaderOf(lines, map[]).value) == lines
  {
    hide FieldOf, Underscored, HeaderLineSpelled, HeaderValueOf, KeysAgree, HeaderOf, FieldLine, ShowHeader;
    SpelledHeader(lines, map[]);
    var header := HeaderOf(lines, map[]).value;
    forall i | 0 <= i < |lines| ensures Refresh(lines, header)[i] == lines[i] {
      RefreshAt(lines, header, i);
      if FieldOf(lines[i]).Some? {
        HeaderHolds(lines, map[], i);
        SpelledValue(lines[i]);
      }
    }
  }

  /** A refreshed header line is spelled, and two of one key agree. */
  lemma RefreshedSpelled(line: string, header: map<string, HeaderValue>)
    requires GoodHeader(header)
    requires FieldOf(line).Some? ==> Underscored(FieldOf(line).value.key) in header
    ensures var r := RefreshLine(line, header);
            FieldOf(r).Some? ==>
              && HeaderLineSpelled(r) && Underscored(FieldOf(r).value.key) in header
              && FieldOf(r).value.value == ShowHeader(header[Underscored(FieldOf(r).value.key)])
  {
    hide FieldOf, Underscored, ValueIn, FieldLine, IntOf, ShowInt, IntSpelled, RevHead, Blank, Plain, Stripped;
    if FieldOf(line).Some? {
      var f := FieldOf(line).value;
      var v := header[Underscored(f.key)];
      RefreshedLine(line, header);
      ValueRecognised(Underscored(f.key), v);
      ValueInExact(RefreshLine(line, header), f.key, ShowHeader(v));
      assert GoodHeaderValue(Underscored(f.key), v);
      if v.Number? {
        IntShown(v.number);
      }
    }
  }

  lemma {:induction false} KeyThere(lines: seq<string>, i: nat)
    requires i < |lines| && FieldOf(lines[i]).Some?
    ensures Underscored(FieldOf(lines[i]).value.key) in FieldKeys(lines)
  {
    hide FieldOf, Underscored;
    if i > 0 {
      KeyThere(lines[1..], i - 1);
    }
  }

  lemma TopShown(d: Data)
    requires Printable(d)
    ensures PreambleSpelled(Preamble(d) + Gap(d)) && GapSpelled(Preamble(d) + Gap(d), d.commits == [])
  {
    hide FieldOf, RevHead, Underscored, GoodHeader, AllGood, DistinctRevs, Plain, HeaderLineSpelled, ShowHeader,
      RefreshLine, Blank, FieldKeys, DropBlankTail;
    var top := Preamble(d) + Gap(d);
    forall i | 0 <= i < |top| && FieldOf(top[i]).Some?
      ensures HeaderLineSpelled(top[i]) && ShownFrom(d.header, FieldOf(top[i]).value)
    {
      if i < |Preamble(d)| {
        assert top[i] == Refresh(d.preamble, d.header)[i] by { DropIsPrefix(Refresh(d.preamble, d.header)); }
        RefreshAt(d.preamble, d.header, i);
        if FieldOf(d.preamble[i]).Some? {
          KeyThere(d.preamble, i);
        }
        RefreshedSpelled(d.preamble[i], d.header);
      } else {
        assert top[i] == Gap(d)[i - |Preamble(d)|];
        assert Blank(top[i]);
        BlankLine(top[i]);
        assert false;
      }
    }
    GapShown(d);
  }

  predicate ShownFrom(header: map<string, HeaderValue>, f: Field) {
    Underscored(f.key) in header && f.value == ShowHeader(header[Underscored(f.key)])
  }

  lemma GapShown(d: Data)
    ensures GapSpelled(Preamble(d) + Gap(d), d.commits == [])
  {
    hide Refresh, Blank;
    var p := Preamble(d);
    var top := p + Gap(d);
    forall i | |p| <= i < |top| ensures top[i] == "" {
      assert top[i] == Gap(d)[i - |p|];
    }
  }

  lemma DropStops(p: seq<string>, gap: seq<string>)
    requires AllBlank(gap) && (p == [] || !Blank(p[|p| - 1]))
    ensures DropBlankTail(p + gap) == p
  {
    hide AllBlank, Blank;
    DropBlankAppend(p, gap);
  }

  // ---- the theorem

  lemma PrintedCanonical(d: Data)
    requires Printable(d) && NoneShouted(d.commits)
    ensures Canonical(Print(d))
  {
    hide Split, RevHead, Print, NewestFirst, GoodCommit, GoodHeader, Preamble, FieldKeys, Plain, AllLines, Shouted,
      PreambleSpelled, GapSpelled, RecordsSpelled;
    var cs := NewestFirst(d.commits);
    var top := Preamble(d) + Gap(d);
    var lines := top + AllLines(cs);
    PrintedLines(d);
    PrintedPlain(d);
    TopFirst(d);
    TopShown(d);
    SortedGood(d.commits);
    SameEmpty(d.commits);
    NewestFirstDescending(d.commits);
    NoneShoutedSorted(d.commits);
    NoLines();
    assert lines[..|top|] == top && lines[|top|..] == AllLines(cs);
    if cs != [] {
      SomeLines(cs);
    }
    RecordsShown(lines, |top|, cs, None);
  }

  lemma SomeLines(cs: seq<Commit>)
    requires cs != []
    ensures AllLines(cs) != []
  {
    hide CommitLinesOf;
    FirstLine(cs[0]);
  }

  lemma TopFirst(d: Data)
    requires Printable(d)
    ensures var top := Preamble(d) + Gap(d); FirstHead(top + AllLines(NewestFirst(d.commits)), 0) == |top|
  {
    hide RevHead, NewestFirst, Preamble, Plain, AllLines, Printable;
    var top := Preamble(d) + Gap(d);
    var rest := AllLines(NewestFirst(d.commits));
    var lines := top + rest;
    PreamblePlain(d);
    forall k | 0 <= k < |top| ensures RevHead(lines[k]).None? {
      if k >= |Preamble(d)| {
        assert lines[k] == Gap(d)[k - |Preamble(d)|];
        BlankLine(lines[k]);
      }
    }
    if rest != [] {
      NonEmptyLines(NewestFirst(d.commits));
      assert lines[|top|] == rest[0];
    }
    FirstHeadAt(lines, 0, |top|);
  }

  /** A canonical text is the print of the dictionary its lines spell. */
  lemma CanonicalPrinted(text: string) returns (d: Data)
    requires Canonical(text)
    ensures Printable(d) && NoneShouted(d.commits) && text == Print(d)
  {
    hide Split, RevHead, Print, NewestFirst, GoodCommit, GoodHeader, FieldKeys, Plain, AllLines, Shouted,
      PreambleSpelled, GapSpelled, RecordsSpelled, FirstHead, Preamble, RecordsFrom, HeaderOf, Gap;
    var lines := Split(text, '\n');
    var n := FirstHead(lines, 0);
    var top := lines[..n];
    LinesPlain(text);
    NoHeadBefore(lines, 0);
    RefreshSpelled(top);
    var cs := RecordsFrom(lines, n, None);
    d := Data(top, HeaderOf(top, map[]).value, cs);
    EmptyHeaderGood();
    HeaderGood(top, map[]);
    RecordsFromRead(lines, n, None);
    DescendingDistinct(cs);
    assert Printable(d);
    NewestFirstFixed(cs);
    RecordsFromNone(lines, n);
    TopRead(d);
    PrintedLines(d);
    assert lines == top + lines[n..];
    JoinSplit(text, '\n');
    JoinSplit(Print(d), '\n');
  }

  lemma RecordsFromNone(lines: seq<string>, n: nat)
    requires n <= |lines| && RecordsSpelled(lines, n, None)
    ensures RecordsFrom(lines, n, None) == [] <==> n == |lines|
  {
    hide RecordFrom, RecordEnd;
  }

  lemma TopRead(d: Data)
    requires GapSpelled(d.preamble, d.commits == []) && Refresh(d.preamble, d.header) == d.preamble
    ensures Preamble(d) + Gap(d) == d.preamble
  {
    hide Refresh, Blank, DropBlankTail;
    var top := d.preamble;
    var n := |top| - if d.commits == [] then 2 else 1;
    var m := if n == 1 && top[0] == "" then 0 else n;
    var p, gap := top[..m], top[m..];
    forall i | 0 <= i < |gap| ensures Blank(gap[i]) {
      assert gap[i] == top[m + i] == "";
      BlankNothing();
    }
    assert top == p + gap;
    DropStops(p, gap);
    assert Preamble(d) == p;
    assert Gap(d) == gap;
  }

  lemma BlankNothing()
    ensures Blank("")
  {}

  /** A text is accepted and survives loading and saving byte for byte exactly when it is canonical. */
  lemma LosslessIff(text: string)
    requires '\r' !in ReplaceCrLf(text)
    ensures Canonical(text) <==> Parse(text).Ok? && Rewrite(text) == text
  {
    hide Parse, Print, Printable, Normal, NoneShouted, Canonical;
    if Canonical(text) {
      var d := CanonicalPrinted(text);
      ParsePrint(d);
      SurvivesIffPrinted(text);
    }
    if Parse(text).Ok? && Rewrite(text) == text {
      SurvivesIffPrinted(text);
      var d: Data :| Printable(d) && NoneShouted(d.commits) && text == Print(d);
      PrintedCanonical(d);
    }
  }
}
