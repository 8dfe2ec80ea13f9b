/** What an import run does to the records that are already in the file. */
module CommitKept {
  import opened Wrappers
  import opened Text
  import opened CommitData
  import opened CommitParser
  import opened CommitPrinter
  import opened CommitLines
  import opened CommitRoundTrip
  import opened CommitDocument
  import opened CommitClean
  import opened CommitTheorems
  import opened CommitImport
  import opened CommitRuns
  import opened CommitSpelling
  import opened CommitCanonical
  import opened CommitCli

  // ---- existing records, line by line

  /** The lines of each record from line `i` on, from its head to the next head or the end. */
  function Blocks(lines: seq<string>, i: nat): seq<seq<string>>
    requires i <= |lines|
    decreases |lines| - i
  {
    if i == |lines| then []
    else
      match RevHead(lines[i])
      case None => Blocks(lines, i + 1)
      case Some(rev) =>
        match Record(lines, i + 1, BlankCommit(rev), "")
        case Err(e) => []
        case Ok(p) => [lines[i..p.next]] + Blocks(lines, p.next)
  }

  function RecordLines(text: string): seq<seq<string>> {
    var lines := Split(text, '\n');
    Blocks(lines, FirstHead(lines, 0))
  }

  /** The text `load` parses: that of the file, or of the file that a single line in it names. */
  function SourceText(disk: map<string, string>, path: string): string
    requires path in disk
  {
    var source := disk[path];
    if '\n' !in source && !Blank(source) && source in disk then disk[source] else source
  }

  /** Every record of the old text stands in the new one, line for line. */
  predicate LinesKept(before: string, after: string) {
    forall b :: b in RecordLines(before) ==> b in RecordLines(after)
  }

  /** The lines of one record, spelled as the script spells them. */
  predicate BlockSpelled(b: seq<string>) { RecordEnd(b, 0) == Some(|b|) }

  predicate AllSpelled(text: string) { forall b :: b in RecordLines(text) ==> BlockSpelled(b) }

  /** Lines `b` read as record `c`, and printing `c` gives them back exactly when they are spelled. */
  predicate BlockOf(b: seq<string>, c: Commit) {
    && b != [] && RevHead(b[0]) == Some(c.rev)
    && (CommitLinesOf(c) == b <==> BlockSpelled(b))
  }

  lemma {:induction false} RecordStops(lines: seq<string>, i: nat, c: Commit, pending: string)
    requires i <= |lines| && Record(lines, i, c, pending).Ok?
    ensures var j := Record(lines, i, c, pending).value.next; j < |lines| ==> RevHead(lines[j]).Some?
    decreases |lines| - i
  {
    hide RevHead, FenceOf, FieldOf, WithFence, WithField, WithOther, Underscored, Join;
    if i < |lines| && RevHead(lines[i]).None? {
      var fence, field := FenceOf(lines[i]), FieldOf(lines[i]);
      if fence.Some? {
        var end := FenceEnd(lines, i + 1, fence.value.length);
        RecordStops(lines, end + 1, WithFence(c, fence.value.tag, Join(lines[i + 1..end], "\n")), "");
      } else if field.Some? {
        var key := Underscored(field.value.key);
        RecordStops(lines, i + 1, WithField(c, key, field.value.value), key);
      } else {
        RecordStops(lines, i + 1, WithOther(c, pending, lines[i]), pending);
      }
    }
  }

  /** Printing a record that was read gives its lines back exactly when they are spelled. */
  lemma BlockKeptIff(lines: seq<string>, i: nat, rev: nat)
    requires i < |lines| && AllPlain(lines) && RevHead(lines[i]) == Some(rev)
    requires Record(lines, i + 1, BlankCommit(rev), "").Ok?
    ensures var p := Record(lines, i + 1, BlankCommit(rev), "").value;
            GoodCommit(p.commit) && BlockOf(lines[i..p.next], p.commit)
  {
    hide RevHead, Record, CommitLinesOf, RecordEnd, GoodCommit, Plain;
    var p := Record(lines, i + 1, BlankCommit(rev), "").value;
    var b := lines[i..p.next];
    BlankGood(rev);
    RecordGood(lines, i + 1, BlankCommit(rev), "");
    RecordStops(lines, i + 1, BlankCommit(rev), "");
    assert p.commit.rev == rev && b[0] == lines[i];
    if CommitLinesOf(p.commit) == b {
      RecordRead(lines, i, p.commit);
      NeverShouted(p.commit);
      assert b[0..0 + |b|] == b;
      RecordShown(b, 0, p.commit);
    }
    if BlockSpelled(b) {
      SpelledReadBack(lines, i, p.next, rev);
    }
  }

  lemma SpelledReadBack(lines: seq<string>, i: nat, j: nat, rev: nat)
    requires i < j <= |lines| && AllPlain(lines) && RevHead(lines[i]) == Some(rev)
    requires j < |lines| ==> RevHead(lines[j]).Some?
    requires BlockSpelled(lines[i..j])
    ensures var r := Record(lines, i + 1, BlankCommit(rev), "");
            r.Ok? && CommitLinesOf(r.value.commit) == lines[i..j]
  {
    hide RevHead, Record, CommitLinesOf, RecordEnd, RecordFrom, GoodCommit, Plain, HeadSpelled, HeadRev, Shouted;
    var b := lines[i..j];
    RecordFromRead(b, 0);
    var c := RecordFrom(b, 0);
    assert b[0..|b|] == b && b[0] == lines[i];
    RecordEndHead(b);
    HeadRead(b[0]);
    RecordRead(lines, i, c);
    SameFormat(c);
    ReadBackGood(c);
    CommitText(c);
    CommitText(ReadBack(c));
  }

  lemma RecordEndHead(b: seq<string>)
    requires BlockSpelled(b)
    ensures b != [] && HeadSpelled(b[0])
  {
    hide FieldsSpelled, MessageEnd, FilesEnd;
  }

  lemma {:induction false} BlocksRead(lines: seq<string>, i: nat, seen: set<nat>)
    requires i <= |lines| && AllPlain(lines) && Records(lines, i, seen).Ok?
    ensures var cs := Records(lines, i, seen).value;
            && |Blocks(lines, i)| == |cs|
            && forall k :: 0 <= k < |cs| ==> BlockOf(Blocks(lines, i)[k], cs[k])
    decreases |lines| - i
  {
    hide RevHead, Record, BlockOf, Plain;
    if i < |lines| {
      var head := RevHead(lines[i]);
      if head.None? {
        BlocksRead(lines, i + 1, seen);
      } else {
        var p := Record(lines, i + 1, BlankCommit(head.value), "").value;
        BlockKeptIff(lines, i, head.value);
        BlocksRead(lines, p.next, seen + {head.value});
      }
    }
  }

  /** The records of a text and their lines. */
  lemma TextBlocks(text: string)
    requires '\r' !in text && Parse(text).Ok?
    ensures var d := Parse(text).value;
            && (forall b :: b in RecordLines(text) ==> exists c :: c in d.commits && BlockOf(b, c))
            && (forall c :: c in d.commits ==> exists b :: b in RecordLines(text) && BlockOf(b, c))
  {
    hide Split, HeaderOf, NewestFirst, BlockOf, Blocks, Records, FirstHead, Plain;
    var lines := Split(text, '\n');
    var n := FirstHead(lines, 0);
    LinesPlain(text);
    var cs := Records(lines, n, {}).value;
    BlocksRead(lines, n, {});
    var bs, d := Blocks(lines, n), Parse(text).value;
    assert multiset(d.commits) == multiset(cs);
    forall b | b in bs ensures exists c :: c in d.commits && BlockOf(b, c) {
      var k :| 0 <= k < |bs| && bs[k] == b;
      assert cs[k] in multiset(cs) && cs[k] in multiset(d.commits);
    }
    forall c | c in d.commits ensures exists b :: b in bs && BlockOf(b, c) {
      assert c in multiset(d.commits) && c in multiset(cs);
      var k :| 0 <= k < |cs| && cs[k] == c;
      assert bs[k] in bs;
    }
  }

  function LinesOfEach(cs: seq<Commit>): (r: seq<seq<string>>)
    ensures |r| == |cs|
  {
    if cs == [] then [] else [CommitLinesOf(cs[0])] + LinesOfEach(cs[1..])
  }

  lemma {:induction false} LinesOfEachAt(cs: seq<Commit>, k: nat)
    requires k < |cs|
    ensures LinesOfEach(cs)[k] == CommitLinesOf(cs[k])
  {
    hide CommitLinesOf;
    if k > 0 {
      LinesOfEachAt(cs[1..], k - 1);
    }
  }

  lemma PrintedBlock(lines: seq<string>, i: nat, c: Commit)
    requires GoodCommit(c)
    requires var j := i + |CommitLinesOf(c)|;
             j <= |lines| && lines[i..j] == CommitLinesOf(c) && (j < |lines| ==> RevHead(lines[j]).Some?)
    ensures var j := i + |CommitLinesOf(c)|;
            i < j && Blocks(lines, i) == [CommitLinesOf(c)] + Blocks(lines, j)
  {
    hide Record, RevHead, GoodCommit, CommitLinesOf, ReadBack, Blocks;
    FirstLine(c);
    assert lines[i] == lines[i..i + |CommitLinesOf(c)|][0];
    HeadRecognised(c.rev);
    RecordRead(lines, i, c);
    BlockStep(lines, i, c.rev);
  }

  lemma BlockStep(lines: seq<string>, i: nat, rev: nat)
    requires i < |lines| && RevHead(lines[i]) == Some(rev) && Record(lines, i + 1, BlankCommit(rev), "").Ok?
    ensures var j := Record(lines, i + 1, BlankCommit(rev), "").value.next;
            Blocks(lines, i) == [lines[i..j]] + Blocks(lines, j)
  {
    hide Record, RevHead;
  }

  lemma {:induction false} PrintedBlocks(lines: seq<string>, i: nat, cs: seq<Commit>)
    requires i <= |lines| && lines[i..] == AllLines(cs) && AllGood(cs)
    ensures Blocks(lines, i) == LinesOfEach(cs)
    decreases |cs|
  {
    hide RevHead, GoodCommit, CommitLinesOf, Blocks;
    if cs == [] {
      assert i == |lines|;
      NoBlocks(lines);
    } else {
      var c := cs[0];
      var j := i + |CommitLinesOf(c)|;
      assert lines[i..j] == lines[i..][..j - i];
      assert lines[j..] == lines[i..][j - i..];
      if j < |lines| {
        FirstLine(cs[1]);
        HeadRecognised(cs[1].rev);
        assert lines[j] == lines[j..][0];
      }
      PrintedBlock(lines, i, c);
      PrintedBlocks(lines, j, cs[1..]);
    }
  }

  lemma NoBlocks(lines: seq<string>)
    ensures Blocks(lines, |lines|) == []
  {}

  /** The records of a printed text, line by line. */
  lemma PrintBlocks(d: Data, b: seq<string>)
    requires Printable(d) && Descending(d.commits)
    ensures b in RecordLines(Print(d)) <==> exists c :: c in d.commits && CommitLinesOf(c) == b
  {
    hide Split, RevHead, Print, NewestFirst, Preamble, Gap, AllLines, CommitLinesOf, Blocks, FirstHead, Printable,
      LinesOfEach;
    var top := Preamble(d) + Gap(d);
    var lines := top + AllLines(d.commits);
    NewestFirstFixed(d.commits);
    PrintedLines(d);
    TopFirst(d);
    assert lines[|top|..] == AllLines(d.commits);
    assert AllGood(d.commits) by { PrintableGood(d); }
    PrintedBlocks(lines, |top|, d.commits);
    var bs := Blocks(lines, |top|);
    if b in bs {
      var k :| 0 <= k < |bs| && bs[k] == b;
      LinesOfEachAt(d.commits, k);
      assert d.commits[k] in d.commits;
    }
    if c :| c in d.commits && CommitLinesOf(c) == b {
      var k :| 0 <= k < |d.commits| && d.commits[k] == c;
      LinesOfEachAt(d.commits, k);
      assert bs[k] in bs;
    }
  }

  lemma PrintableGood(d: Data)
    requires Printable(d)
    ensures AllGood(d.commits)
  {}

  /** A printed record begins with its own head. */
  lemma HeadOf(c: Commit, b: seq<string>, rev: nat)
    requires CommitLinesOf(c) == b && b != [] && RevHead(b[0]) == Some(rev)
    ensures c.rev == rev
  {
    hide RevHead, CommitLinesOf;
    FirstLine(c);
    HeadRecognised(c.rev);
  }

  /** Adding records to a text's and printing them keeps the lines of the old ones exactly when these are spelled. */
  lemma PrintKeepsIff(text: string, u: Data)
    requires '\r' !in text && Parse(text).Ok? && Printable(u) && Descending(u.commits)
    requires forall c :: c in Parse(text).value.commits ==> c in u.commits
    ensures LinesKept(text, Print(u)) <==> AllSpelled(text)
  {
    hide Parse, Print, Printable, RecordLines, BlockOf, BlockSpelled, Descending;
    TextBlocks(text);
    forall b | b in RecordLines(text) ensures b in RecordLines(Print(u)) <==> BlockSpelled(b) {
      var c :| c in Parse(text).value.commits && BlockOf(b, c);
      BlockStandsIff(u, b, c);
    }
  }

  lemma BlockStandsIff(u: Data, b: seq<string>, c: Commit)
    requires Printable(u) && Descending(u.commits) && c in u.commits && BlockOf(b, c)
    ensures b in RecordLines(Print(u)) <==> BlockSpelled(b)
  {
    hide Print, Printable, CommitLinesOf, RecordLines, RevHead, BlockSpelled;
    PrintBlocks(u, b);
    if c' :| c' in u.commits && CommitLinesOf(c') == b {
      HeadOf(c', b, c.rev);
      SameRevSame(u.commits, c, c');
    }
  }

  lemma SameRevSame(cs: seq<Commit>, a: Commit, b: Commit)
    requires Descending(cs) && a in cs && b in cs && a.rev == b.rev
    ensures a == b
  {}

  lemma SourceParsed(disk: map<string, string>, path: string)
    requires NoCr(disk) && Load(path, disk).Ok?
    ensures path in disk && '\r' !in SourceText(disk, path) && Load(path, disk) == Parse(SourceText(disk, path))
  {
    hide Parse, Blank;
  }

  /**
    * A run leaves every existing record in the file, line for line, exactly when each of them is spelled
    * as the script spells it; that can be told from the old file.
    */
  lemma LinesKeptIff(disk: map<string, string>, path: string, log: seq<Entry>, url: string, now: string)
    requires NoCr(disk) && Ready(disk, path, url) && GoodLog(log) && GoodWord(url) && GoodWord(now)
    ensures path in disk && Invoked(disk, path, log, url, now).Ok?
    ensures var disk1 := Invoked(disk, path, log, url, now).value;
            && path in disk1
            && (LinesKept(SourceText(disk, path), disk1[path]) <==> AllSpelled(SourceText(disk, path)))
  {
    hide Load, Parse, Print, Printable, Updated, Watermark, Limit, GoodWord, GoodLog, Target, Ready, Invoked, NoCr,
      Descending, FieldKeys, SourceText, LinesKept, AllSpelled, Revs;
    ReadyLoads(disk, path, url);
    InvokedStores(disk, path, log, url, now);
    SourceParsed(disk, path);
    var d := Load(path, disk).value;
    LoadedPrintable(disk, path);
    DescendingDistinct(d.commits);
    assert Rising(log) by { PrefixGood(log, log); }
    UpdateExact(d, log, Target(d, url), now);
    PrintKeepsIff(SourceText(disk, path), Updated(d, log, Target(d, url), now));
  }

  // ---- existing records as the parser reads them

  /** Every record reads as it did. */
  predicate RecordsKept(before: seq<Commit>, after: seq<Commit>) { forall c :: c in before ==> c in after }

  /** A run keeps what the parser reads in the records exactly when no lone reference in them reads `?` or `none`. */
  lemma RecordsKeptIff(disk: map<string, string>, path: string, log: seq<Entry>, url: string, now: string)
    requires NoCr(disk) && Ready(disk, path, url) && GoodLog(log) && GoodWord(url) && GoodWord(now)
    ensures Invoked(disk, path, log, url, now).Ok?
    ensures var disk1 := Invoked(disk, path, log, url, now).value;
            var d := Load(path, disk).value;
            && Load(path, disk1).Ok?
            && (RecordsKept(d.commits, Load(path, disk1).value.commits) <==> AllSurvive(d.commits))
  {
    hide Load, GoodWord, GoodLog, Ready, Invoked, NoCr, AllSurvive, Tells, ReadBack, Survives, Watermark, Limit;
    ReadyLoads(disk, path, url);
    FileTells(disk, path, log, url, now);
    var d := Load(path, disk).value;
    KeptIff(d.commits, Load(path, Invoked(disk, path, log, url, now).value).value.commits);
  }

  lemma KeptIff(before: seq<Commit>, after: seq<Commit>)
    requires Descending(after) && forall c :: c in before ==> ReadBack(c) in after
    ensures RecordsKept(before, after) <==> AllSurvive(before)
  {
    hide Survives, ReadBackRefs;
    if AllSurvive(before) {
      forall c | c in before ensures c in after {
        assert ReadBack(c) in after;
        ReadBackSame(c);
      }
    }
    if RecordsKept(before, after) {
      forall i | 0 <= i < |before| ensures Survives(before[i].jira) && Survives(before[i].changelogRef) {
        var c := before[i];
        assert c in before;
        var j :| 0 <= j < |after| && after[j] == c;
        var k :| 0 <= k < |after| && after[k] == ReadBack(c);
        assert after[j].rev == after[k].rev;
        assert j == k;
        ReadBackSame(c);
      }
    }
  }

  lemma ReadBackSame(c: Commit)
    ensures ReadBack(c) == c <==> Survives(c.jira) && Survives(c.changelogRef)
  {
    hide Survives, ReadBackRefs;
    ReadBackRefsSame(c.jira);
    ReadBackRefsSame(c.changelogRef);
  }

  /** A file of one record whose only reference is `word`. */
  function LoneFile(word: string): map<string, string> { map["c" := "## r1\n- jira: " + word + ","] }

  /** What the parser reads changes. */
  predicate Misread(disk: map<string, string>) {
    && Ready(disk, "c", "u") && Invoked(disk, "c", [], "u", "t").Ok?
    && var disk1 := Invoked(disk, "c", [], "u", "t").value;
       Load("c", disk1).Ok? && !RecordsKept(Load("c", disk).value.commits, Load("c", disk1).value.commits)
  }

  const REVIEWER := "- reviewer: bob"

  /** A file of one record with a field of one's own. */
  function OwnField(): map<string, string> { map["c" := OwnText()] }

  function OwnText(): string { "## r1\n" + REVIEWER }

  /** What the parser reads stays, and yet a line of the record is gone. */
  predicate Dropped(disk: map<string, string>, line: string) {
    && "c" in disk && line in Split(disk["c"], '\n')
    && Ready(disk, "c", "u") && Invoked(disk, "c", [], "u", "t").Ok?
    && var disk1 := Invoked(disk, "c", [], "u", "t").value;
       && "c" in disk1 && Load("c", disk1).Ok?
       && RecordsKept(Load("c", disk).value.commits, Load("c", disk1).value.commits)
       && !LinesKept(disk["c"], disk1["c"]) && line !in Split(disk1["c"], '\n')
  }

  /**
    * A run with nothing to import empties a record triaged as `NONE,`, undoes the triage of one that says `?,`
    * and deletes a field it does not know.
    */
  lemma RecordsNotKept()
    ensures Misread(LoneFile("NONE")) && Misread(LoneFile("?"))
    ensures Dropped(OwnField(), REVIEWER)
  {
    hide Misread, Dropped, LoneFile, OwnField, Lower, ParseRefs;
    assert "NONE" + "," == "NONE," && "?" + "," == "?,";
    ShoutedRefs();
    LowerNone();
    LoneLost("NONE");
    MarkRefs();
    LoneLost("?");
    OwnFieldDropped();
  }

  lemma OwnFieldLines()
    ensures Split(OwnField()["c"], '\n') == ["## r1", REVIEWER] && '\r' !in OwnField()["c"]
  {
    hide Split;
    var head, text := "## r1", OwnField()["c"];
    assert text == (head + ['\n']) + REVIEWER;
    assert '\n' !in head && '\n' !in REVIEWER;
    SplitAt(head, '\n', REVIEWER);
    SplitUnbroken(head, '\n');
    SplitUnbroken(REVIEWER, '\n');
    assert '\r' !in head && '\r' !in REVIEWER;
  }

  lemma OwnFieldLoaded()
    ensures NoCr(OwnField()) && Load("c", OwnField()) == Ok(Data([], map[], [BlankCommit(1)]))
  {
    hide Parse, WithField, FieldLine, Blank, ParseRefs;
    var text := OwnField()["c"];
    assert FieldLine("reviewer", "bob") == REVIEWER by { BobLine(); }
    assert ShowNat(1) == "1";
    assert text == "## r" + ShowNat(1) + "\n" + FieldLine("reviewer", "bob");
    OneField(1, "reviewer", "bob");
    UnknownField();
    assert text[5] == '\n';
    assert '\r' !in text;
  }

  lemma BobLine()
    ensures FieldLine("reviewer", "bob") == REVIEWER
  {}

  lemma UnknownField()
    ensures WithField(BlankCommit(1), Underscored("reviewer"), "bob") == BlankCommit(1)
  {
    assert Underscored("reviewer") == "reviewer";
  }

  lemma {:induction false} BlocksFit(lines: seq<string>, i: nat)
    requires i <= |lines|
    ensures forall b :: b in Blocks(lines, i) ==> |b| <= |lines|
    decreases |lines| - i
  {
    hide RevHead, Record;
    if i < |lines| {
      var head := RevHead(lines[i]);
      if head.None? {
        BlocksFit(lines, i + 1);
      } else {
        var r := Record(lines, i + 1, BlankCommit(head.value), "");
        if r.Ok? {
          BlocksFit(lines, r.value.next);
        }
      }
    }
  }

  /** Fewer than twelve lines are too few for a spelled record. */
  lemma TooShort(text: string)
    requires |Split(text, '\n')| < 12
    ensures forall b :: b in RecordLines(text) ==> !BlockSpelled(b)
  {
    hide Split, Blocks, RecordEnd, FirstHead;
    BlocksFit(Split(text, '\n'), FirstHead(Split(text, '\n'), 0));
  }

  lemma OwnFieldNotSpelled()
    ensures !AllSpelled(OwnField()["c"])
  {
    hide Split, BlockOf, BlockSpelled, Load, OwnText, RecordLines, Parse;
    var text := OwnField()["c"];
    OwnFieldLines();
    OwnFieldLoaded();
    OwnFieldParsed();
    TextBlocks(text);
    var d := Parse(text).value;
    assert d.commits == [BlankCommit(1)];
    assert d.commits[0] in d.commits;
    TooShort(text);
  }

  lemma OwnFieldParsed()
    ensures Load("c", OwnField()) == Parse(OwnField()["c"]) && SourceText(OwnField(), "c") == OwnField()["c"]
  {
    hide Parse, Blank;
    assert OwnField()["c"][5] == '\n';
  }

  lemma OwnFieldReady()
    ensures NoCr(OwnField()) && Ready(OwnField(), "c", "u") && GoodLog([]) && GoodWord("u") && GoodWord("t")
  {
    hide Load, OwnField, NoCr, Watermark, Target;
    OwnFieldLoaded();
    ZeroMark([BlankCommit(1)]);
    GivenTarget(Data([], map[], [BlankCommit(1)]));
    EmptyLogGood();
  }

  lemma OwnFieldSurvives()
    ensures Load("c", OwnField()).Ok? && AllSurvive(Load("c", OwnField()).value.commits)
  {
    hide Load, OwnField;
    OwnFieldLoaded();
  }

  lemma OwnFieldDropped()
    ensures Dropped(OwnField(), REVIEWER)
  {
    hide Load, OwnText, Invoked, GoodLog, GoodWord, RecordsKept, LinesKept, AllSpelled, AllSurvive, NoCr, Split,
      SourceText, Ready;
    OwnFieldReady();
    OwnFieldLines();
    OwnFieldParsed();
    OwnFieldNotSpelled();
    OwnFieldSurvives();
    RecordsKeptIff(OwnField(), "c", [], "u", "t");
    LinesKeptIff(OwnField(), "c", [], "u", "t");
    OwnLineGone();
  }

  lemma OwnLineGone()
    ensures var r := Invoked(OwnField(), "c", [], "u", "t");
            r.Ok? && "c" in r.value && REVIEWER !in Split(r.value["c"], '\n')
  {
    hide Load, OwnField, Print, NoCr, Split, NewHeader, Printable, Preamble, CommitLinesOf, NewestFirst, Target,
      Ready, GoodLog, GoodWord;
    var d := Data([], map[], [BlankCommit(1)]);
    OwnFieldLoaded();
    OwnFieldReady();
    GivenTarget(d);
    InvokedStores(OwnField(), "c", [], "u", "t");
    var u := Updated(d, [], "u", "t");
    PrintedLines(u);
    NothingAdded(d);
    BlankLines();
    NoPreamble(u);
  }

  lemma GivenTarget(d: Data)
    ensures Target(d, "u") == "u"
  {}

  lemma NothingAdded(d: Data)
    requires d.commits == [BlankCommit(1)] && Watermark(d).Some? && Limit(d).Some?
    ensures Updated(d, [], "u", "t").commits == [BlankCommit(1)]
    ensures NewestFirst([BlankCommit(1)]) == [BlankCommit(1)]
    ensures AllLines([BlankCommit(1)]) == CommitLinesOf(BlankCommit(1))
  {
    hide Watermark, Limit, NewHeader, NewestFirst, CommitLinesOf;
    NewestFirstFixed([BlankCommit(1)]);
    assert [BlankCommit(1)] + [] == [BlankCommit(1)];
    assert [BlankCommit(1)][1..] == [];
    assert CommitLinesOf(BlankCommit(1)) + [] == CommitLinesOf(BlankCommit(1));
  }

  lemma NoPreamble(u: Data)
    requires u.preamble == []
    ensures Preamble(u) == []
  {}

  lemma BlankLines()
    ensures REVIEWER !in CommitLinesOf(BlankCommit(1))
  {
    hide Split, LongestTildes;
    SplitUnbroken("", '\n');
    var c := BlankCommit(1);
    assert ShowNat(0) == "0" && ShowNat(1) == "1";
    assert REVIEWER[0] == '-' && REVIEWER[2] == 'r';
    assert FieldLine("jira", "?")[2] == 'j' && FieldLine("changelog-ref", "?")[2] == 'c';
    assert FieldLine("date", "")[2] == 'd' && FieldLine("author", "")[2] == 'a';
    assert FieldLine("files", "0")[2] == 'f' && FieldLine("note", "")[2] == 'n';
    assert (Fenceline(FenceLength("")) + "msg")[0] == '~' && Fenceline(FenceLength(""))[0] == '~';
  }

  lemma MarkRefs()
    ensures ParseRefs("?,") == Some(["?"])
  {
    hide Strip, Split;
    var v := "?,";
    StripFixed(v);
    CommaNotNone(v);
    assert v == "?" + [','] + "";
    SplitAt("?", ',', "");
    SplitUnbroken("?", ',');
    SplitUnbroken("", ',');
    assert Split(v, ',') == ["?", ""];
    StripFixed("?");
    StripFixed("");
    assert ["?", ""][1..] == [""] && [""][1..] == [];
    assert NonBlankParts([""]) == [];
    assert NonBlankParts(["?", ""]) == ["?"];
  }

  lemma LoneLoaded(word: string)
    requires word == "?" || word == "NONE"
    requires ParseRefs(word + ",") == Some([word])
    ensures NoCr(LoneFile(word))
    ensures Load("c", LoneFile(word)) == Ok(Data([], map[], [BlankCommit(1).(jira := Some([word]))]))
  {
    hide Parse, WithField, ParseRefs, Lower, FieldLine, Blank;
    var value := word + ",";
    var text := LoneFile(word)["c"];
    JiraLine(value);
    assert text == "## r" + ShowNat(1) + "\n" + FieldLine("jira", value) by {
      assert ShowNat(1) == "1";
      assert "- jira: " + value == "- jira: " + word + ",";
    }
    OneField(1, "jira", value);
    ListKeys(BlankCommit(1), value);
    assert text[5] == '\n';
    assert '\r' !in text;
  }

  lemma LoneLost(word: string)
    requires word == "?" || word == "NONE"
    requires ParseRefs(word + ",") == Some([word]) && !Survives(Some([word]))
    ensures Misread(LoneFile(word))
  {
    hide Load, LoneFile, Invoked, ParseRefs, Survives, AllSurvive, GoodLog, RecordsKept, NoCr, Watermark;
    LoneLoaded(word);
    var c := BlankCommit(1).(jira := Some([word]));
    NotAll(c);
    ZeroMark([c]);
    assert GoodWord("u") && GoodWord("t");
    EmptyLogGood();
    RecordsKeptIff(LoneFile(word), "c", [], "u", "t");
  }

  lemma ZeroMark(cs: seq<Commit>)
    ensures Watermark(Data([], map[], cs)) == Some(0)
  {}

  lemma JiraLine(value: string)
    requires value != ""
    ensures FieldLine("jira", value) == "- jira: " + value
  {}

  lemma NotAll(c: Commit)
    requires !Survives(c.jira)
    ensures !AllSurvive([c])
  {
    hide Survives;
    assert [c][0] == c;
  }

  lemma EmptyLogGood()
    ensures GoodLog([])
  {}
}
