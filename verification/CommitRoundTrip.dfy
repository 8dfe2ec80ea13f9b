/** Parsing what was printed. */
module CommitRoundTrip {
  import opened Wrappers
  import opened Text
  import opened CommitData
  import opened CommitParser
  import opened CommitPrinter
  import opened CommitLines

  predicate GoodMsg(m: string) {
    '\r' !in m && (m == "" || (m[0] != '\n' && m[|m| - 1] != '\n'))
  }

  predicate GoodWord(s: string) { Plain(s) && Stripped(s) }

  predicate GoodCommit(c: Commit) {
    && GoodRefs(c.jira) && GoodRefs(c.changelogRef)
    && GoodWord(c.date) && GoodWord(c.author) && GoodWord(c.note)
    && GoodMsg(c.msg)
    && GoodFiles(c.files)
  }

  // ---- fences

  /** A fence of `n` tildes around `text`: nothing inside closes it, the closing line does. */
  predicate FenceHolds(text: string, n: nat) {
    var body := Split(text, '\n');
    FenceEnd(body + [Fenceline(n)], 0, n) == |body|
  }

  lemma {:induction false} LongestBounds(lines: seq<string>, i: nat, n: nat)
    requires i < |lines| && Closes(lines[i], n)
    ensures LongestTildes(lines) >= n
  {
    hide RStrip;
    if i > 0 {
      LongestBounds(lines[1..], i - 1, n);
    }
  }

  lemma {:induction false} LongestAttained(lines: seq<string>)
    requires LongestTildes(lines) > 0
    ensures exists i :: 0 <= i < |lines| && Closes(lines[i], LongestTildes(lines))
  {
    hide RStrip;
    var n := LongestTildes(lines);
    if n > LongestTildes(lines[1..]) {
      assert Closes(lines[0], n);
    } else {
      LongestAttained(lines[1..]);
      var i :| 0 <= i < |lines| - 1 && Closes(lines[1..][i], n);
      assert Closes(lines[i + 1], n);
    }
  }

  lemma FencelineCloses(n: nat)
    requires n > 0
    ensures Closes(Fenceline(n), n)
  {
    TildesOf(n, "");
    assert Fenceline(n) + "" == Fenceline(n);
  }

  /** The closing fence is found where it stands when no line before it closes the block. */
  lemma {:induction false} FenceEndsAt(lines: seq<string>, i: nat, end: nat, n: nat)
    requires i <= end < |lines| && Closes(lines[end], n)
    requires forall k :: i <= k < end ==> !Closes(lines[k], n)
    ensures FenceEnd(lines, i, n) == end
    decreases end - i
  {
    hide Closes;
    if i < end {
      FenceEndsAt(lines, i + 1, end, n);
    }
  }

  lemma {:induction false} FenceEndIsFirst(lines: seq<string>, i: nat, k: nat, n: nat)
    requires i <= k < |lines| && Closes(lines[k], n)
    ensures FenceEnd(lines, i, n) <= k
    decreases k - i
  {
    hide Closes;
    if i < k {
      FenceEndIsFirst(lines, i + 1, k, n);
    }
  }

  /** `_fence_for` gives the shortest fence, of at least three tildes, that `_read_fence` cannot close early. */
  lemma FenceIsShortest(text: string, n: nat)
    requires n >= 3
    ensures FenceHolds(text, n) <==> n >= FenceLength(text)
  {
    hide Closes, Split, LongestTildes;
    var body := Split(text, '\n');
    var lines := body + [Fenceline(n)];
    var longest := LongestTildes(body);
    FencelineCloses(n);
    if n >= FenceLength(text) {
      forall k | 0 <= k < |body| ensures !Closes(lines[k], n) {
        if Closes(body[k], n) {
          LongestBounds(body, k, n);
        }
      }
      FenceEndsAt(lines, 0, |body|, n);
    } else {
      LongestAttained(body);
      var k :| 0 <= k < |body| && Closes(body[k], longest);
      assert Closes(lines[k], n) by { ClosesShorter(body[k], longest, n); }
      FenceEndIsFirst(lines, 0, k, n);
    }
  }

  lemma ClosesShorter(line: string, m: nat, n: nat)
    requires n <= m && Closes(line, m)
    ensures Closes(line, n)
  {}

  // ---- one record

  /** The lines of a printed record. */
  function CommitLinesOf(c: Commit): seq<string> {
    HeadLines(c) + Split(c.msg, '\n') + TailLines(c)
  }

  /** What a printed commit reads back as. */
  function ReadBack(c: Commit): Commit {
    c.(jira := ReadBackRefs(c.jira), changelogRef := ReadBackRefs(c.changelogRef))
  }

  lemma FieldStep(lines: seq<string>, i: nat, c: Commit, pending: string, key: string, value: string)
    requires i < |lines| && lines[i] == FieldLine(key, value)
    requires IsKey(key) && Stripped(value)
    ensures Record(lines, i, c, pending)
         == Record(lines, i + 1, WithField(c, Underscored(key), value), Underscored(key))
  {
    hide FieldOf, FenceOf, RevHead, WithField, FieldLine, FenceEnd, WithOther;
    FieldRecognised(key, value);
  }

  lemma EmptyLineStep(lines: seq<string>, i: nat, c: Commit, pending: string)
    requires i < |lines| && lines[i] == ""
    ensures Record(lines, i, c, pending) == Record(lines, i + 1, c, pending)
  {
    hide WithField, FenceEnd;
    assert RevHead("").None? && FenceOf("").None? && FieldOf("").None?;
  }

  lemma FenceStep(lines: seq<string>, i: nat, end: nat, c: Commit, pending: string, n: nat, tag: string)
    requires i < end < |lines| && lines[i] == Fenceline(n) + tag
    requires n >= 3 && TagChars(tag) && Closes(lines[end], n)
    requires forall k :: i < k < end ==> !Closes(lines[k], n)
    ensures Record(lines, i, c, pending)
         == Record(lines, end + 1, WithFence(c, tag, Join(lines[i + 1..end], "\n")), "")
  {
    hide FenceOf, RevHead, WithFence, Closes, FieldOf, WithField, WithOther, Join, FenceEnd;
    FenceRecognised(n, tag);
    FenceEndsAt(lines, i + 1, end, n);
  }

  lemma NumberStripped(n: nat)
    ensures Stripped(ShowNat(n)) && Plain(ShowNat(n)) && ShowNat(n) != ""
  {
    var s := ShowNat(n);
    assert IsDigit(s[0]) && IsDigit(s[|s| - 1]);
    assert forall c :: c in s ==> IsDigit(c);
  }

  lemma ListKeys(c: Commit, value: string)
    ensures WithField(c, Underscored("jira"), value) == c.(jira := ParseRefs(value))
    ensures WithField(c, Underscored("changelog-ref"), value) == c.(changelogRef := ParseRefs(value))
  {
    hide ParseRefs;
    assert Underscored("jira") == "jira";
    assert Underscored("changelog-ref") == "changelog_ref";
  }

  lemma WordKeys(c: Commit, value: string)
    ensures WithField(c, Underscored("date"), value) == c.(date := value)
    ensures WithField(c, Underscored("author"), value) == c.(author := value)
    ensures WithField(c, Underscored("note"), value) == c.(note := value)
    ensures Underscored("note") == "note"
  {
    hide ParseRefs, AllDigits;
    assert Underscored("date") == "date";
    assert Underscored("author") == "author";
    assert Underscored("note") == "note";
  }

  lemma CountKey(c: Commit, n: nat)
    ensures WithField(c, Underscored("files"), ShowNat(n)) == c.(fileCount := n)
  {
    hide ParseRefs;
    assert Underscored("files") == "files";
  }

  /** The lines between a record's head and its message fence. */
  lemma HeadFieldsRead(lines: seq<string>, i: nat, c: Commit)
    requires i + 9 <= |lines| && lines[i..i + 9] == HeadLines(c)
    requires GoodCommit(c)
    ensures Record(lines, i + 1, BlankCommit(c.rev), "")
         == Record(lines, i + 8, ReadBack(c).(msg := "", files := [], truncated := 0), "note")
  {
    hide FieldLine, Record, ReadBackRefs, FormatRefs, ParseRefs, GoodMsg, GoodFile, Underscored, WithField, ShowNat;
    var jira, changelog := FormatRefs(c.jira), FormatRefs(c.changelogRef);
    assert lines[i + 1] == FieldLine("jira", jira) by { assert lines[i + 1] == lines[i..i + 9][1]; }
    assert lines[i + 2] == FieldLine("changelog-ref", changelog) by { assert lines[i + 2] == lines[i..i + 9][2]; }
    RefsRecognised(c.jira);
    RefsRecognised(c.changelogRef);
    var c0 := BlankCommit(c.rev);
    var c1 := c0.(jira := ReadBackRefs(c.jira));
    FieldStep(lines, i + 1, c0, "", "jira", jira);
    ListKeys(c0, jira);
    FieldStep(lines, i + 2, c1, Underscored("jira"), "changelog-ref", changelog);
    ListKeys(c1, changelog);
    PlainFieldsRead(lines, i, c, c1.(changelogRef := ReadBackRefs(c.changelogRef)), Underscored("changelog-ref"));
  }

  lemma PlainFieldsRead(lines: seq<string>, i: nat, c: Commit, c2: Commit, pending: string)
    requires i + 9 <= |lines| && lines[i..i + 9] == HeadLines(c)
    requires GoodCommit(c)
    ensures Record(lines, i + 3, c2, pending)
         == Record(lines, i + 8, c2.(date := c.date, author := c.author, fileCount := c.fileCount, note := c.note),
             "note")
  {
    hide FieldLine, Record, FormatRefs, ParseRefs, GoodMsg, GoodFile, GoodRefs, Underscored, WithField, ShowNat;
    assert lines[i + 3] == FieldLine("date", c.date) by { assert lines[i + 3] == lines[i..i + 9][3]; }
    assert lines[i + 4] == FieldLine("author", c.author) by { assert lines[i + 4] == lines[i..i + 9][4]; }
    assert lines[i + 5] == FieldLine("files", ShowNat(c.fileCount)) by { assert lines[i + 5] == lines[i..i + 9][5]; }
    assert lines[i + 6] == FieldLine("note", c.note) by { assert lines[i + 6] == lines[i..i + 9][6]; }
    assert lines[i + 7] == "" by { assert lines[i + 7] == lines[i..i + 9][7]; }
    NumberStripped(c.fileCount);
    var c3 := c2.(date := c.date);
    var c4 := c3.(author := c.author);
    var c5 := c4.(fileCount := c.fileCount);
    var c6 := c5.(note := c.note);
    FieldStep(lines, i + 3, c2, pending, "date", c.date);
    WordKeys(c2, c.date);
    FieldStep(lines, i + 4, c3, Underscored("date"), "author", c.author);
    WordKeys(c3, c.author);
    FieldStep(lines, i + 5, c4, Underscored("author"), "files", ShowNat(c.fileCount));
    CountKey(c4, c.fileCount);
    FieldStep(lines, i + 6, c5, Underscored("files"), "note", c.note);
    WordKeys(c5, c.note);
    EmptyLineStep(lines, i + 7, c6, "note");
  }

  lemma TrimFixed(m: string)
    requires GoodMsg(m)
    ensures TrimNewlines(m) == m
  {}

  /** The message comes back verbatim, whatever lines it holds. */
  lemma MessageRead(lines: seq<string>, i: nat, c: Commit, acc: Commit, pending: string)
    requires GoodMsg(c.msg)
    requires var body := Split(c.msg, '\n'); i + |body| + 2 <= |lines| && lines[i + 1..i + 1 + |body|] == body
    requires var n := FenceLength(c.msg);
             lines[i] == Fenceline(n) + "msg" && lines[i + 1 + |Split(c.msg, '\n')|] == Fenceline(n)
    ensures Record(lines, i, acc, pending)
         == Record(lines, i + 2 + |Split(c.msg, '\n')|, acc.(msg := c.msg), "")
  {
    hide Closes, LongestTildes, Split, Record, Join, TrimNewlines, ListingOf;
    var body, n := Split(c.msg, '\n'), FenceLength(c.msg);
    var end := i + 1 + |body|;
    FencelineCloses(n);
    forall k | i < k < end ensures !Closes(lines[k], n) {
      assert lines[k] == lines[i + 1..end][k - i - 1];
      if Closes(body[k - i - 1], n) {
        LongestBounds(body, k - i - 1, n);
      }
    }
    FenceStep(lines, i, end, acc, pending, n, "msg");
    JoinSplit(c.msg, '\n');
    TrimFixed(c.msg);
  }

  lemma {:induction false} ListingConcat(a: seq<string>, b: seq<string>, acc: Listing)
    ensures ListingOf(a + b, acc) == ListingOf(b, ListingOf(a, acc))
  {
    hide WithFileLine;
    if a == [] {
      assert a + b == b;
    } else {
      assert (a + b)[1..] == a[1..] + b;
      ListingConcat(a[1..], b, WithFileLine(acc, a[0]));
    }
  }

  lemma {:induction false} FilesRead(files: seq<FileEntry>, acc: Listing)
    requires GoodFiles(files)
    ensures ListingOf(FileLines(files), acc) == acc.(files := acc.files + files)
  {
    hide TruncOf, PathOf, GoodFile;
    if files == [] {
      assert acc.files + files == acc.files;
    } else {
      FileRecognised(files[0]);
      FilesRead(files[1..], acc.(files := acc.files + [files[0]]));
      assert acc.files + [files[0]] + files[1..] == acc.files + files;
    }
  }

  lemma ListingRead(l: Listing)
    requires GoodFiles(l.files)
    ensures ListingOf(ListingLines(l), Listing([], 0)) == l
  {
    hide TruncOf, PathOf, GoodFile, TruncLine;
    FilesRead(l.files, Listing([], 0));
    assert [] + l.files == l.files;
    var tail := if l.truncated > 0 then [TruncLine(l.truncated)] else [];
    ListingConcat(FileLines(l.files), tail, Listing([], 0));
    TruncRecognised(l.truncated);
    if l.truncated > 0 {
      assert tail[1..] == [];
    }
  }

  lemma NotTilde(line: string, n: nat)
    requires line != "" && line[0] != '~'
    ensures !Closes(line, n)
  {}

  predicate PlainStart(line: string) { line != "" && line[0] != '~' && Plain(line) }

  lemma FileLinePlain(f: FileEntry)
    requires GoodFile(f)
    ensures PlainStart(f.action + " " + f.path)
  {}

  lemma TruncLinePlain(n: nat)
    ensures PlainStart(TruncLine(n))
  {
    NumberStripped(n);
  }

  lemma ListingPlain(l: Listing)
    requires GoodFiles(l.files)
    ensures forall i :: 0 <= i < |ListingLines(l)| ==> PlainStart(ListingLines(l)[i])
  {
    hide TruncLine, PlainStart, GoodFile;
    forall i | 0 <= i < |ListingLines(l)|
      ensures PlainStart(ListingLines(l)[i])
    {
      if i < |l.files| {
        FileLinePlain(l.files[i]);
      } else {
        TruncLinePlain(l.truncated);
      }
    }
  }

  lemma FilesFenceRead(lines: seq<string>, i: nat, l: Listing, acc: Commit, pending: string)
    requires GoodFiles(l.files)
    requires ListingLines(l) != []
    requires var end := i + 1 + |ListingLines(l)|;
             end < |lines| && lines[i] == "~~~files" && lines[i + 1..end] == ListingLines(l) && lines[end] == "~~~"
    ensures Record(lines, i, acc, pending)
         == Record(lines, i + 2 + |ListingLines(l)|, acc.(files := l.files, truncated := l.truncated), "")
  {
    hide Closes, Split, Record, Join, TrimNewlines, ListingOf, ListingLines, GoodFile;
    var body := ListingLines(l);
    var end := i + 1 + |body|;
    ListingPlain(l);
    assert Fenceline(3) == "~~~" && Fenceline(3) + "files" == "~~~files";
    FencelineCloses(3);
    forall k | i < k < end ensures !Closes(lines[k], 3) {
      assert lines[k] == lines[i + 1..end][k - i - 1];
      NotTilde(lines[k], 3);
    }
    FenceStep(lines, i, end, acc, pending, 3, "files");
    SplitJoin(body, '\n');
    ListingRead(l);
  }

  /** The files fence of a record and the blank line after it, when there is one. */
  lemma FilesPartRead(lines: seq<string>, i: nat, c: Commit, acc: Commit)
    requires GoodCommit(c) && acc.files == [] && acc.truncated == 0
    requires var tail := TailLines(c)[2..]; i + |tail| <= |lines| && lines[i..i + |tail|] == tail
    ensures Record(lines, i, acc, "")
         == Record(lines, i + |TailLines(c)| - 2, acc.(files := c.files, truncated := c.truncated), "")
  {
    hide Record, FenceLength, GoodRefs, GoodMsg, GoodFile, ListingLines, GoodWord;
    var tail := TailLines(c)[2..];
    if c.files != [] || c.truncated > 0 {
      var l := Listing(c.files, c.truncated);
      var body := ListingLines(l);
      var end := i + 1 + |body|;
      assert tail == ["~~~files"] + body + ["~~~", ""];
      assert tail[0] == "~~~files" && tail[1..1 + |body|] == body;
      assert tail[1 + |body|] == "~~~" && tail[2 + |body|] == "";
      Subslice(lines, i, |tail|, 1, 1 + |body|);
      assert lines[i] == lines[i..i + |tail|][0];
      assert lines[end] == lines[i..i + |tail|][1 + |body|];
      assert lines[end + 1] == lines[i..i + |tail|][2 + |body|];
      NonEmptyListing(l);
      FilesFenceRead(lines, i, l, acc, "");
      EmptyLineStep(lines, end + 1, acc.(files := c.files, truncated := c.truncated), "");
    }
  }

  /** Everything from the message fence to the end of a printed record. */
  lemma TailRead(lines: seq<string>, i: nat, c: Commit, acc: Commit, pending: string)
    requires GoodCommit(c) && acc.files == [] && acc.truncated == 0
    requires i + 1 + |Split(c.msg, '\n')| + |TailLines(c)| <= |lines|
    requires lines[i] == Fenceline(FenceLength(c.msg)) + "msg"
    requires var m := i + 1 + |Split(c.msg, '\n')|;
             lines[i + 1..m] == Split(c.msg, '\n') && lines[m..m + |TailLines(c)|] == TailLines(c)
    ensures Record(lines, i, acc, pending)
         == Record(lines, i + 1 + |Split(c.msg, '\n')| + |TailLines(c)|,
                   acc.(msg := c.msg, files := c.files, truncated := c.truncated), "")
  {
    hide Split, Record, FenceLength, GoodRefs, GoodFile, ListingLines, GoodWord;
    var m := i + 1 + |Split(c.msg, '\n')|;
    TailShape(c);
    hide TailLines;
    var tail := TailLines(c);
    assert lines[m] == lines[m..m + |tail|][0] && lines[m + 1] == lines[m..m + |tail|][1];
    MessageRead(lines, i, c, acc, pending);
    EmptyLineStep(lines, m + 1, acc.(msg := c.msg), "");
    Subslice(lines, m, |tail|, 2, |tail|);
    assert tail[2..|tail|] == tail[2..];
    FilesPartRead(lines, m + 2, c, acc.(msg := c.msg));
  }

  lemma TailShape(c: Commit)
    ensures |TailLines(c)| >= 2 && TailLines(c)[0] == Fenceline(FenceLength(c.msg)) && TailLines(c)[1] == ""
  {
    hide FenceLength, ListingLines;
  }

  lemma NonEmptyListing(l: Listing)
    requires l.files != [] || l.truncated > 0
    ensures ListingLines(l) != []
  {
    hide TruncLine;
  }

  lemma RecordRead(lines: seq<string>, i: nat, c: Commit)
    requires GoodCommit(c)
    requires i + |CommitLinesOf(c)| <= |lines| && lines[i..i + |CommitLinesOf(c)|] == CommitLinesOf(c)
    requires var j := i + |CommitLinesOf(c)|; j < |lines| ==> RevHead(lines[j]).Some?
    ensures Record(lines, i + 1, BlankCommit(c.rev), "") == Ok(Parsed(ReadBack(c), i + |CommitLinesOf(c)|))
  {
    hide Split, RevHead, GoodCommit, TailLines, HeadLines, ReadBackRefs, FenceOf, FieldOf, WithField, WithOther,
      WithFence, Record;
    var n, head, body, tail := |CommitLinesOf(c)|, HeadLines(c), Split(c.msg, '\n'), TailLines(c);
    HeadShape(c);
    var all := lines[i..i + n];
    assert all == head + body + tail;
    assert all[0..9] == head && all[9..9 + |body|] == body && all[9 + |body|..n] == tail;
    Subslice(lines, i, n, 0, 9);
    Subslice(lines, i, n, 9, 9 + |body|);
    Subslice(lines, i, n, 9 + |body|, n);
    HeadFieldsRead(lines, i, c);
    assert lines[i + 8] == all[8];
    TailRead(lines, i + 8, c, ReadBack(c).(msg := "", files := [], truncated := 0), "note");
    RecordEnds(lines, i + n, ReadBack(c), "");
  }

  lemma RecordEnds(lines: seq<string>, i: nat, c: Commit, pending: string)
    requires i <= |lines| && (i < |lines| ==> RevHead(lines[i]).Some?)
    ensures Record(lines, i, c, pending) == Ok(Parsed(c, i))
  {
    hide RevHead, FenceOf, FieldOf;
  }

  lemma HeadShape(c: Commit)
    ensures |HeadLines(c)| == 9
    ensures HeadLines(c)[0] == "## r" + ShowNat(c.rev)
    ensures HeadLines(c)[8] == Fenceline(FenceLength(c.msg)) + "msg"
  {
    hide FieldLine, FenceLength, FormatRefs;
  }

  // ---- all records

  function AllLines(cs: seq<Commit>): seq<string> {
    if cs == [] then [] else CommitLinesOf(cs[0]) + AllLines(cs[1..])
  }

  function ReadBackAll(cs: seq<Commit>): (r: seq<Commit>)
    ensures |r| == |cs|
  {
    if cs == [] then [] else [ReadBack(cs[0])] + ReadBackAll(cs[1..])
  }

  predicate DistinctRevs(cs: seq<Commit>) {
    forall i, j :: 0 <= i < j < |cs| ==> cs[i].rev != cs[j].rev
  }

  predicate AllGood(cs: seq<Commit>) { forall i :: 0 <= i < |cs| ==> GoodCommit(cs[i]) }

  lemma {:induction false} RecordsRead(lines: seq<string>, i: nat, cs: seq<Commit>, seen: set<nat>)
    requires i <= |lines| && lines[i..] == AllLines(cs)
    requires AllGood(cs) && DistinctRevs(cs)
    requires forall k :: 0 <= k < |cs| ==> cs[k].rev !in seen
    ensures Records(lines, i, seen) == Ok(ReadBackAll(cs))
    decreases |cs|
  {
    hide Record, RevHead, GoodCommit, CommitLinesOf, ReadBackRefs;
    if cs != [] {
      var c := cs[0];
      var j := i + |CommitLinesOf(c)|;
      FirstLine(c);
      assert lines[i] == lines[i..][0];
      HeadRecognised(c.rev);
      assert lines[i..j] == lines[i..][..j - i];
      assert lines[j..] == lines[i..][j - i..];
      if j < |lines| {
        FirstLine(cs[1]);
        HeadRecognised(cs[1].rev);
        assert lines[j] == lines[j..][0];
      }
      RecordRead(lines, i, c);
      RecordsRead(lines, j, cs[1..], seen + {c.rev});
    }
  }

  lemma FirstLine(c: Commit)
    ensures |CommitLinesOf(c)| > 0 && CommitLinesOf(c)[0] == "## r" + ShowNat(c.rev)
  {
    hide HeadLines, TailLines, Split;
    HeadShape(c);
  }
}
