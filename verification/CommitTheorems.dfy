/** Round trip, rewriting and their exact limits. */
module CommitTheorems {
  import opened Wrappers
  import opened Text
  import opened CommitData
  import opened CommitParser
  import opened CommitPrinter
  import opened CommitLines
  import opened CommitRoundTrip
  import opened CommitDocument
  import opened CommitClean

  // ---- data -> text -> data

  /** A list that keeps its meaning in print: not a single key spelled `?` or `none`. */
  predicate Survives(refs: Refs) {
    refs.Some? && |refs.value| == 1 ==> refs.value[0] != "?" && Lower(refs.value[0]) != "none"
  }

  predicate AllSurvive(cs: seq<Commit>) {
    forall i :: 0 <= i < |cs| ==> Survives(cs[i].jira) && Survives(cs[i].changelogRef)
  }

  lemma ReadBackRefsSame(refs: Refs)
    ensures ReadBackRefs(refs) == refs <==> Survives(refs)
  {
    hide Lower;
  }

  lemma {:induction false} ReadBackAllSame(cs: seq<Commit>)
    ensures ReadBackAll(cs) == cs <==> AllSurvive(cs)
  {
    hide Survives, ReadBackRefs;
    forall i | 0 <= i < |cs|
      ensures ReadBackAll(cs)[i] == cs[i] <==> Survives(cs[i].jira) && Survives(cs[i].changelogRef)
    {
      ReadBackAllAt(cs, i);
      ReadBackRefsSame(cs[i].jira);
      ReadBackRefsSame(cs[i].changelogRef);
    }
    if AllSurvive(cs) {
      assert forall i :: 0 <= i < |cs| ==> ReadBackAll(cs)[i] == cs[i];
    }
  }

  /** What survives the trip through text, part by part, for every printable dictionary. */
  lemma RoundTrip(d: Data)
    requires Printable(d)
    ensures Parse(Print(d)).Ok?
    ensures var r := Parse(Print(d)).value;
            && (r.commits == d.commits <==> Descending(d.commits) && AllSurvive(d.commits))
            && (r.header == d.header <==> FieldKeys(d.preamble) == d.header.Keys)
            && DropBlankTail(r.preamble) == DropBlankTail(Refresh(d.preamble, d.header))
  {
    hide Parse, Print, ReadBackAll, FieldKeys, AllSurvive, NewestFirst, Refresh, GoodHeader, AllGood, RevHead, Plain;
    ParsePrint(d);
    var cs := NewestFirst(d.commits);
    var r := Normal(d);
    NewestFirstDescending(d.commits);
    ReadBackAllSame(cs);
    if r.commits == d.commits {
      ReadBackDescending(cs);
      NewestFirstFixed(d.commits);
    }
    if Descending(d.commits) {
      NewestFirstFixed(d.commits);
    }
    RestrictSame(d.header, FieldKeys(d.preamble));
    PreambleTrimmed(d);
  }

  lemma RestrictSame(header: map<string, HeaderValue>, keys: set<string>)
    requires keys <= header.Keys
    ensures Restrict(header, keys) == header <==> keys == header.Keys
  {
    assert Restrict(header, keys).Keys == keys;
  }

  lemma {:induction false} DropBlankAppend(lines: seq<string>, extra: seq<string>)
    requires AllBlank(extra)
    ensures DropBlankTail(lines + extra) == DropBlankTail(lines)
    decreases |extra|
  {
    hide Blank;
    if extra == [] {
      assert lines + extra == lines;
    } else {
      var n := |extra| - 1;
      assert (lines + extra)[..|lines + extra| - 1] == lines + extra[..n];
      DropBlankAppend(lines, extra[..n]);
    }
  }

  lemma DropBlankTwice(lines: seq<string>)
    ensures DropBlankTail(DropBlankTail(lines)) == DropBlankTail(lines)
  {
    hide Blank;
  }

  lemma PreambleTrimmed(d: Data)
    ensures DropBlankTail(Preamble(d) + Gap(d)) == Preamble(d)
  {
    hide DropBlankTail, AllBlank;
    DropBlankAppend(Preamble(d), Gap(d));
    DropBlankTwice(Refresh(d.preamble, d.header));
  }

  // ---- text -> text

  /** A lone reference that spells `none` in other letters, such as `NONE`. */
  predicate Shouted(refs: Refs) {
    refs.Some? && |refs.value| == 1 && Lower(refs.value[0]) == "none" && refs.value[0] != "none"
  }

  predicate NoneShouted(cs: seq<Commit>) {
    forall i :: 0 <= i < |cs| ==> !Shouted(cs[i].jira) && !Shouted(cs[i].changelogRef)
  }

  lemma ReprintedRefs(refs: Refs)
    ensures FormatRefs(ReadBackRefs(refs)) == FormatRefs(refs) <==> !Shouted(refs)
  {
    if refs.Some? && |refs.value| == 1 {
      assert Join(refs.value, ", ") == refs.value[0];
      assert Lower("none") == "none";
      assert Lower("?") != "none";
    }
  }

  lemma ReadBackGood(c: Commit)
    requires GoodCommit(c)
    ensures GoodCommit(ReadBack(c))
  {}

  lemma {:induction false} ReadBackAllGood(cs: seq<Commit>)
    requires AllGood(cs)
    ensures AllGood(ReadBackAll(cs))
  {
    hide GoodCommit, ReadBack;
    forall i | 0 <= i < |cs| ensures GoodCommit(ReadBackAll(cs)[i]) {
      ReadBackAllAt(cs, i);
      ReadBackGood(cs[i]);
    }
  }

  /** Two records that print alike print their references alike. */
  lemma SameLinesSameRefs(c: Commit)
    requires GoodCommit(c) && CommitLinesOf(ReadBack(c)) == CommitLinesOf(c)
    ensures !Shouted(c.jira) && !Shouted(c.changelogRef)
  {
    hide Split, TailLines, FieldLine, FormatRefs, ReadBackRefs, FenceLength, Shouted, GoodMsg, GoodFiles, GoodWord,
      ShowNat, ParseRefs;
    var b := ReadBack(c);
    assert CommitLinesOf(b)[1] == HeadLines(b)[1] && CommitLinesOf(c)[1] == HeadLines(c)[1];
    assert CommitLinesOf(b)[2] == HeadLines(b)[2] && CommitLinesOf(c)[2] == HeadLines(c)[2];
    ReadBackGood(c);
    SameField("jira", b.jira, c.jira);
    SameField("changelog-ref", b.changelogRef, c.changelogRef);
    ReprintedRefs(c.jira);
    ReprintedRefs(c.changelogRef);
  }

  lemma SameField(key: string, a: Refs, b: Refs)
    requires IsKey(key) && GoodRefs(a) && GoodRefs(b)
    requires FieldLine(key, FormatRefs(a)) == FieldLine(key, FormatRefs(b))
    ensures FormatRefs(a) == FormatRefs(b)
  {
    hide FormatRefs, FieldOf, FieldLine, RevHead, FenceOf, Blank, ParseRefs, ReadBackRefs;
    RefsRecognised(a);
    RefsRecognised(b);
    FieldRecognised(key, FormatRefs(a));
    FieldRecognised(key, FormatRefs(b));
  }

  lemma SameLength(c: Commit)
    ensures |CommitLinesOf(ReadBack(c))| == |CommitLinesOf(c)|
  {
    hide Split, FieldLine, FormatRefs, ReadBackRefs, FenceLength, ListingLines;
  }

  lemma {:induction false} AllLinesSame(cs: seq<Commit>)
    requires AllGood(cs) && AllLines(ReadBackAll(cs)) == AllLines(cs)
    ensures NoneShouted(cs)
  {
    hide CommitLinesOf, ReadBack, GoodCommit, Shouted;
    if cs != [] {
      var c, n := cs[0], |CommitLinesOf(cs[0])|;
      SameLength(c);
      var a, b := AllLines(ReadBackAll(cs)), AllLines(cs);
      assert ReadBackAll(cs)[1..] == ReadBackAll(cs[1..]);
      assert a[..n] == CommitLinesOf(ReadBack(c)) && b[..n] == CommitLinesOf(c);
      assert a[n..] == AllLines(ReadBackAll(cs[1..])) && b[n..] == AllLines(cs[1..]);
      SameLinesSameRefs(c);
      AllLinesSame(cs[1..]);
      forall i | 0 <= i < |cs| ensures !Shouted(cs[i].jira) && !Shouted(cs[i].changelogRef) {
        if i > 0 {
          assert cs[i] == cs[1..][i - 1];
        }
      }
    }
  }

  lemma SameFormat(c: Commit)
    requires !Shouted(c.jira) && !Shouted(c.changelogRef)
    ensures FormatCommit(ReadBack(c)) == FormatCommit(c)
  {
    hide Split, FieldLine, FormatRefs, ReadBackRefs, FenceLength, ListingLines, Shouted, Join, ShowNat;
    ReprintedRefs(c.jira);
    ReprintedRefs(c.changelogRef);
  }

  lemma {:induction false} AllSameFormat(cs: seq<Commit>)
    requires NoneShouted(cs)
    ensures FormatCommits(ReadBackAll(cs)) == FormatCommits(cs)
  {
    hide FormatCommit, ReadBack, Shouted;
    if cs != [] {
      SameFormat(cs[0]);
      AllSameFormat(cs[1..]);
      assert ReadBackAll(cs)[1..] == ReadBackAll(cs[1..]);
    }
  }

  lemma {:induction false} NoneShoutedSorted(cs: seq<Commit>)
    ensures NoneShouted(NewestFirst(cs)) <==> NoneShouted(cs)
  {
    hide Shouted, NewestFirst;
    var s := NewestFirst(cs);
    assert forall i :: 0 <= i < |s| ==> s[i] in multiset(s) && s[i] in multiset(cs);
    assert forall i :: 0 <= i < |cs| ==> cs[i] in multiset(cs) && cs[i] in multiset(s);
  }

  /** A printed preamble is already up to date. */
  lemma {:induction false} RefreshStable(lines: seq<string>, header: map<string, HeaderValue>,
      header': map<string, HeaderValue>)
    requires GoodHeader(header) && FieldKeys(lines) <= header.Keys
    requires forall key :: key in FieldKeys(lines) ==> key in header' && header'[key] == header[key]
    ensures Refresh(Refresh(lines, header), header') == Refresh(lines, header)
  {
    hide FieldOf, Underscored, FieldLine, ShowHeader, GoodHeader;
    if lines != [] {
      assert Refresh(lines, header)[1..] == Refresh(lines[1..], header);
      RefreshStable(lines[1..], header, header');
      if FieldOf(lines[0]).Some? {
        RefreshedLine(lines[0], header);
      }
    }
  }

  lemma {:induction false} RefreshPrefix(lines: seq<string>, header: map<string, HeaderValue>, n: nat)
    requires n <= |lines|
    ensures Refresh(lines[..n], header) == Refresh(lines, header)[..n]
  {
    hide RefreshLine;
    if n > 0 {
      RefreshPrefix(lines[1..], header, n - 1);
      assert lines[..n][1..] == lines[1..][..n - 1];
    }
  }

  lemma {:induction false} RefreshAppendBlank(lines: seq<string>, extra: seq<string>, header: map<string, HeaderValue>)
    requires AllBlank(extra)
    ensures Refresh(lines + extra, header) == Refresh(lines, header) + extra
  {
    hide FieldOf, Blank;
    if lines != [] {
      assert (lines + extra)[1..] == lines[1..] + extra;
      RefreshAppendBlank(lines[1..], extra, header);
    } else if extra != [] {
      BlankLine(extra[0]);
      assert lines + extra == extra && [] + extra[1..] == extra[1..];
      RefreshAppendBlank([], extra[1..], header);
    }
  }

  /** Reading a printed file back and printing again leaves its top unchanged. */
  lemma PreambleStable(d: Data)
    requires Printable(d)
    ensures Preamble(Normal(d)) == Preamble(d)
  {
    hide GoodHeader, DropBlankTail, RevHead, Plain, AllGood, FieldKeys, AllBlank;
    var header' := Normal(d).header;
    var all := Refresh(d.preamble, d.header);
    var p := Preamble(d);
    assert p == all[..|p|] by { DropIsPrefix(all); }
    RefreshStable(d.preamble, d.header, header');
    RefreshPrefix(all, header', |p|);
    assert Refresh(p, header') == p;
    RefreshAppendBlank(p, Gap(d), header');
    PreambleTrimmed(d);
  }

  lemma DropIsPrefix(lines: seq<string>)
    ensures DropBlankTail(lines) <= lines
  {}

  /** Printing what a printed file reads back as gives the same text, save for a shouted `none`. */
  lemma ReprintIff(d: Data)
    requires Printable(d)
    ensures Print(Normal(d)) == Print(d) <==> NoneShouted(d.commits)
  {
    hide NewestFirst, FormatCommits, GoodHeader, RevHead, Plain, AllGood, FieldKeys, NoneShouted, AllLines,
      ReadBackAll, Join, Preamble, Gap;
    var cs := NewestFirst(d.commits);
    var bs := ReadBackAll(cs);
    NewestFirstDescending(d.commits);
    ReadBackDescending(cs);
    NewestFirstFixed(bs);
    PreambleStable(d);
    NoneShoutedSorted(d.commits);
    PrintForm(d);
    PrintForm(Normal(d));
    var top := Join(Preamble(d), "\n") + "\n\n";
    if NoneShouted(cs) {
      AllSameFormat(cs);
    }
    if Print(Normal(d)) == Print(d) && cs != [] {
      var a, b := Join(FormatCommits(bs), "\n"), Join(FormatCommits(cs), "\n");
      assert a == (top + a)[|top|..] && b == (top + b)[|top|..];
      SortedGood(d.commits);
      ReadBackAllGood(cs);
      CommitsText(cs);
      CommitsText(bs);
      AllLinesSame(cs);
    }
    if cs == [] {
      assert NoneShouted(cs) by { NobodyShouts(); }
    }
  }

  lemma NobodyShouts()
    ensures NoneShouted([])
  {}

  lemma PrintForm(d: Data)
    ensures Print(d) == Join(Preamble(d), "\n") + "\n\n" + Join(FormatCommits(NewestFirst(d.commits)), "\n")
  {
    hide Join, FormatCommits, NewestFirst, DropBlankTail, Refresh;
  }

  /** Loading a file and saving it again. */
  function Rewrite(text: string): string
    requires Parse(text).Ok?
  {
    Print(Parse(text).value)
  }

  /** Every accepted text, once its CRLF pairs are read as line breaks, rewrites to an accepted text. */
  lemma RewriteAccepted(text: string)
    requires Parse(text).Ok? && '\r' !in ReplaceCrLf(text)
    ensures Parse(Rewrite(text)) == Ok(Normal(Parse(text).value))
  {
    hide Parse, Print, Printable, Normal;
    ParsedPrintable(text);
    ParsePrint(Parse(text).value);
  }

  /** Rewriting twice is rewriting once exactly when no record's only reference spells `none` in other letters. */
  lemma RewriteIdempotentIff(text: string)
    requires Parse(text).Ok? && '\r' !in ReplaceCrLf(text)
    ensures Parse(Rewrite(text)).Ok?
    ensures Rewrite(Rewrite(text)) == Rewrite(text) <==> NoneShouted(Parse(text).value.commits)
  {
    hide Parse, Print, Printable, Normal, NoneShouted;
    RewriteAccepted(text);
    ParsedPrintable(text);
    ReprintIff(Parse(text).value);
  }

  /** The texts that rewrite to themselves are the printed ones without a shouted `none`. */
  lemma SurvivesIffPrinted(text: string)
    requires Parse(text).Ok? && '\r' !in ReplaceCrLf(text)
    ensures Rewrite(text) == text
       <==> exists d: Data :: Printable(d) && NoneShouted(d.commits) && text == Print(d)
  {
    hide Parse, Print, Printable, Normal, NoneShouted;
    ParsedPrintable(text);
    RewriteIdempotentIff(text);
    if Rewrite(text) == text {
      var d := Parse(text).value;
      assert Printable(d) && NoneShouted(d.commits) && text == Print(d);
    }
    forall d: Data | Printable(d) && NoneShouted(d.commits) && text == Print(d)
      ensures Rewrite(text) == text
    {
      ParsePrint(d);
      ReprintIff(d);
    }
  }

  /** The smallest text that does not survive: one line break comes back as two. */
  lemma RewriteNotLossless()
    ensures Parse("\n").Ok? && Rewrite("\n") != "\n"
  {
    assert ReplaceCrLf("\n") == "\n" && Split("\n", '\n') == ["", ""] by {
      SplitAt("", '\n', "");
      SplitUnbroken("", '\n');
    }
    var lines := ["", ""];
    BlankLine("");
    FirstHeadAt(lines, 0, 2);
    assert lines[..2] == lines;
    HeaderBlank(lines, map[]);
    assert Records(lines, 2, {}) == Ok([]);
    assert NewestFirst([]) == [];
    PrintForm(Data(lines, map[], []));
    var d := Data(lines, map[], []);
    assert |Print(d)| >= 2;
  }

  /** A file of one record with one field. */
  lemma OneField(rev: nat, key: string, value: string)
    requires IsKey(key) && Stripped(value) && Plain(value)
    ensures Parse("## r" + ShowNat(rev) + "\n" + FieldLine(key, value))
         == Ok(Data([], map[], [WithField(BlankCommit(rev), Underscored(key), value)]))
  {
    hide RevHead, FieldOf, FenceOf, NewestFirst, WithField, FieldLine, FenceEnd, WithOther, HeaderOf;
    var head, field := "## r" + ShowNat(rev), FieldLine(key, value);
    var text := "## r" + ShowNat(rev) + "\n" + FieldLine(key, value);
    var lines := [head, field];
    HeadRecognised(rev);
    NumberStripped(rev);
    assert Plain(head);
    KeyPlain(key);
    FieldLinePlain(key, value);
    assert '\r' !in text;
    assert Split(text, '\n') == lines by {
      assert text == head + ['\n'] + field;
      SplitAt(head, '\n', field);
      SplitUnbroken(head, '\n');
      SplitUnbroken(field, '\n');
    }
    var c := WithField(BlankCommit(rev), Underscored(key), value);
    FieldStep(lines, 1, BlankCommit(rev), "", key, value);
    RecordEnds(lines, 2, c, Underscored(key));
    assert Records(lines, 2, {rev}) == Ok([]);
    assert Records(lines, 0, {}) == Ok([c] + []);
    FirstHeadAt(lines, 0, 0);
    assert lines[..0] == [];
    HeaderBlank([], map[]);
    NewestFirstFixed([c]);
    assert [c] + [] == [c];
  }

  /** `- jira: NONE,` is kept as `NONE` by the first rewriting and becomes `none` in the second. */
  lemma RewriteNotIdempotent()
    ensures var text := "## r1\n- jira: NONE,";
            Parse(text).Ok? && Parse(Rewrite(text)).Ok? && Rewrite(Rewrite(text)) != Rewrite(text)
  {
    hide Parse, Print, WithField, ParseRefs, Rewrite, Lower;
    var text := "## r1\n- jira: NONE,";
    assert ShowNat(1) == "1";
    assert "## r" + ShowNat(1) + "\n" + FieldLine("jira", "NONE,") == text;
    OneField(1, "jira", "NONE,");
    ShoutedRefs();
    ListKeys(BlankCommit(1), "NONE,");
    var c := BlankCommit(1).(jira := Some(["NONE"]));
    assert Shouted(Some(["NONE"])) by { LowerNone(); }
    assert !NoneShouted([c]) by { assert Shouted([c][0].jira); }
    assert '\r' !in text;
    RewriteIdempotentIff(text);
  }

  lemma LowerNone()
    ensures Lower("NONE") == "none"
  {}

  lemma ShoutedRefs()
    ensures ParseRefs("NONE,") == Some(["NONE"])
  {
    hide Strip, Split;
    var v := "NONE,";
    StripFixed(v);
    CommaNotNone(v);
    assert v == "NONE" + [','] + "";
    SplitAt("NONE", ',', "");
    SplitUnbroken("NONE", ',');
    SplitUnbroken("", ',');
    assert Split(v, ',') == ["NONE", ""];
    StripFixed("NONE");
    StripFixed("");
    assert ["NONE", ""][1..] == [""] && [""][1..] == [];
    assert NonBlankParts([""]) == [];
    assert NonBlankParts(["NONE", ""]) == ["NONE"];
  }

  // ---- paths and files

  /** `commits2dict` takes a line without a break for a path. `disk` holds the texts as they are read. */
  function ParseSource(source: string, disk: map<string, string>): Result<Data, ParseError> {
    if '\n' !in source && !Blank(source) then
      if source in disk then Parse(disk[source]) else Err(MissingFile)
    else Parse(source)
  }

  /** `load(path)`: the text is handed on as a source, so a one-line file is taken for a path in turn. */
  function Load(path: string, disk: map<string, string>): Result<Data, ParseError> {
    if path in disk then ParseSource(disk[path], disk) else Err(MissingFile)
  }

  /** `save` then `load`: printed text is never mistaken for a path. */
  lemma SaveLoad(path: string, d: Data, disk: map<string, string>)
    requires Printable(d)
    ensures Load(path, disk[path := Print(d)]) == Ok(Normal(d))
  {
    hide Join, Parse, Printable, Normal;
    var top := Join(DropBlankTail(Refresh(d.preamble, d.header)), "\n");
    var text := Print(d);
    assert text[|top|] == '\n';
    ParsePrint(d);
  }
}
