/** The whole document: what Parse makes of Print, for any printable dictionary. */
module CommitDocument {
  import opened Wrappers
  import opened Text
  import opened CommitData
  import opened CommitParser
  import opened CommitPrinter
  import opened CommitLines
  import opened CommitRoundTrip

  // ---- order

  predicate Descending(cs: seq<Commit>) {
    forall i, j :: 0 <= i < j < |cs| ==> cs[i].rev > cs[j].rev
  }

  lemma {:induction false} InsertDescending(c: Commit, cs: seq<Commit>)
    requires Descending(cs) && forall i :: 0 <= i < |cs| ==> cs[i].rev != c.rev
    ensures Descending(Insert(c, cs))
  {
    if cs != [] && c.rev < cs[0].rev {
      InsertDescending(c, cs[1..]);
      var r := Insert(c, cs[1..]);
      forall k | 0 <= k < |r| ensures r[k].rev < cs[0].rev {
        assert r[k] in multiset(r);
        assert r[k] in multiset(cs[1..]) + multiset{c};
      }
    }
  }

  lemma {:induction false} NewestFirstDescending(cs: seq<Commit>)
    requires DistinctRevs(cs)
    ensures Descending(NewestFirst(cs))
  {
    hide Insert;
    if cs != [] {
      NewestFirstDescending(cs[1..]);
      var r := NewestFirst(cs[1..]);
      forall i | 0 <= i < |r| ensures r[i].rev != cs[0].rev {
        assert r[i] in multiset(r);
        assert r[i] in multiset(cs[1..]);
      }
      InsertDescending(cs[0], r);
    }
  }

  lemma {:induction false} NewestFirstFixed(cs: seq<Commit>)
    requires Descending(cs)
    ensures NewestFirst(cs) == cs
  {
    if cs != [] {
      NewestFirstFixed(cs[1..]);
      assert cs == [cs[0]] + cs[1..];
    }
  }

  lemma NewestFirstSame(cs: seq<Commit>, i: nat)
    requires i < |NewestFirst(cs)|
    ensures NewestFirst(cs)[i] in cs
  {
    assert NewestFirst(cs)[i] in multiset(NewestFirst(cs));
    assert NewestFirst(cs)[i] in multiset(cs);
  }

  lemma DescendingDistinct(cs: seq<Commit>)
    requires Descending(cs)
    ensures DistinctRevs(cs)
  {}

  // ---- header

  predicate GoodHeaderValue(key: string, v: HeaderValue) {
    if IsIntKey(key) then v.Number? else v.Word? && GoodWord(v.text)
  }

  predicate GoodHeader(header: map<string, HeaderValue>) {
    forall key :: key in header ==> GoodHeaderValue(key, header[key])
  }

  /** The header keys for which the preamble holds a line. */
  function FieldKeys(lines: seq<string>): set<string> {
    if lines == [] then {}
    else
      (match FieldOf(lines[0])
       case None => {}
       case Some(f) => {Underscored(f.key)}) + FieldKeys(lines[1..])
  }

  function Restrict(header: map<string, HeaderValue>, keys: set<string>): map<string, HeaderValue> {
    map key | key in header && key in keys :: header[key]
  }

  lemma FieldShape(line: string)
    requires FieldOf(line).Some?
    ensures IsKey(FieldOf(line).value.key) && Stripped(FieldOf(line).value.value)
    ensures Plain(line) ==> Plain(FieldOf(line).value.value)
  {
    hide Strip, LStrip, RStrip;
    var t := LStrip(line[1..]);
    var after := t[Find(t, ':') + 1..];
    var value := FieldOf(line).value.value;
    if Plain(line) {
      forall c | c in value ensures c in line {
        StripChars(after, c);
        LStripChars(line[1..], c);
      }
    }
  }

  lemma KeyPlain(key: string)
    requires IsKey(key)
    ensures Plain(key)
  {
    assert forall c :: c in key ==> KeyChar(c);
  }

  lemma DigitsAreInt(n: nat)
    ensures IntBody(ShowNat(n)) && DropUnderscores(ShowNat(n)) == ShowNat(n)
  {
    hide ShowNat, DropUnderscores;
    var digits := ShowNat(n);
    assert '_' !in digits by {
      assert forall c :: c in digits ==> IsDigit(c);
    }
  }

  lemma IntRecognised(n: int)
    ensures IntOf(ShowInt(n)) == Some(n) && GoodWord(ShowInt(n))
  {
    hide Strip, ShowNat, ReadNat, DropUnderscores, IntBody;
    var m := if n < 0 then -n else n;
    var digits, s := ShowNat(m), ShowInt(n);
    NumberStripped(m);
    DigitsAreInt(m);
    if n < 0 {
      assert s[0] == '-' && s[1..] == digits && s[|s| - 1] == digits[|digits| - 1];
    } else {
      assert s[0] == digits[0] && IsDigit(digits[0]) && s[0] !in "+-";
    }
    StripFixed(s);
  }

  lemma ValueRecognised(key: string, v: HeaderValue)
    requires GoodHeaderValue(key, v)
    ensures GoodWord(ShowHeader(v)) && HeaderValueOf(key, ShowHeader(v)) == Ok(v)
  {
    hide IntOf, ShowInt;
    if v.Number? {
      IntRecognised(v.number);
    }
  }

  /** A refreshed header line says what the header says, and refreshing it again changes nothing. */
  lemma RefreshedLine(line: string, header: map<string, HeaderValue>)
    requires GoodHeader(header)
    requires FieldOf(line).Some? && Underscored(FieldOf(line).value.key) in header
    ensures var key := FieldOf(line).value.key;
            var r := RefreshLine(line, header);
            && FieldOf(r) == Some(Field(key, ShowHeader(header[Underscored(key)])))
            && RefreshLine(r, header) == r
            && RevHead(r).None? && !Blank(r) && Plain(r)
  {
    hide FieldOf, RevHead, Underscored, ShowHeader, Blank, GoodHeaderValue, FieldLine, Plain, FenceOf, IsKey,
      Stripped, HeaderValueOf;
    var key := FieldOf(line).value.key;
    var v := header[Underscored(key)];
    FieldShape(line);
    ValueRecognised(Underscored(key), v);
    assert Stripped(ShowHeader(v)) && Plain(ShowHeader(v));
    FieldRecognised(key, ShowHeader(v));
    KeyPlain(key);
    FieldLinePlain(key, ShowHeader(v));
  }

  lemma {:induction false} HeaderReadBack(lines: seq<string>, header: map<string, HeaderValue>,
      acc: map<string, HeaderValue>)
    requires GoodHeader(header) && FieldKeys(lines) <= header.Keys
    ensures HeaderOf(Refresh(lines, header), acc) == Ok(acc + Restrict(header, FieldKeys(lines)))
  {
    hide FieldOf, Underscored, ShowHeader, HeaderValueOf, GoodHeaderValue;
    if lines == [] {
      assert acc + Restrict(header, {}) == acc;
    } else {
      var line, rest := lines[0], lines[1..];
      var r := RefreshLine(line, header);
      assert Refresh(lines, header)[1..] == Refresh(rest, header);
      if FieldOf(line).Some? {
        var key := Underscored(FieldOf(line).value.key);
        assert key in FieldKeys(lines);
        assert GoodHeaderValue(key, header[key]);
        RefreshedLine(line, header);
        ValueRecognised(key, header[key]);
        HeaderReadBack(rest, header, acc[key := header[key]]);
        assert acc[key := header[key]] + Restrict(header, FieldKeys(rest)) == acc + Restrict(header, FieldKeys(lines));
      } else {
        HeaderReadBack(rest, header, acc);
        assert FieldKeys(lines) == FieldKeys(rest);
      }
    }
  }

  lemma {:induction false} HeaderConcat(a: seq<string>, b: seq<string>, acc: map<string, HeaderValue>)
    ensures HeaderOf(a + b, acc)
         == match HeaderOf(a, acc) case Err(e) => Err(e) case Ok(h) => HeaderOf(b, h)
  {
    hide WithHeaderLine;
    if a == [] {
      assert a + b == b;
    } else {
      assert (a + b)[1..] == a[1..] + b;
      var h := WithHeaderLine(acc, a[0]);
      if h.Ok? {
        HeaderConcat(a[1..], b, h.value);
      }
    }
  }

  predicate AllBlank(lines: seq<string>) { forall i :: 0 <= i < |lines| ==> Blank(lines[i]) }

  lemma BlankLine(line: string)
    requires Blank(line)
    ensures FieldOf(line).None? && RevHead(line).None?
  {
    if line != "" {
      assert IsSpace(line[0]);
    }
  }

  lemma {:induction false} HeaderBlank(lines: seq<string>, acc: map<string, HeaderValue>)
    requires AllBlank(lines)
    ensures HeaderOf(lines, acc) == Ok(acc)
  {
    hide FieldOf, Blank;
    if lines != [] {
      BlankLine(lines[0]);
      HeaderBlank(lines[1..], acc);
    }
  }

  lemma {:induction false} BlankTail(lines: seq<string>)
    ensures var t := DropBlankTail(lines); lines == t + lines[|t|..] && AllBlank(lines[|t|..])
  {
    hide Blank, AllBlank;
    if lines != [] && Blank(lines[|lines| - 1]) {
      var n := |lines| - 1;
      var front := lines[..n];
      BlankTail(front);
      var t := DropBlankTail(front);
      assert |t| <= n;
      assert lines[|t|..] == front[|t|..] + [lines[n]];
      assert lines == front + [lines[n]];
      AllBlankThen(front[|t|..], lines[n]);
    } else {
      AllBlankNone();
    }
  }

  lemma AllBlankNone()
    ensures AllBlank([])
  {}

  lemma AllBlankThen(lines: seq<string>, line: string)
    requires AllBlank(lines) && Blank(line)
    ensures AllBlank(lines + [line])
  {
    hide Blank;
  }

  /** Blank lines at the end are immaterial to the header. */
  lemma HeaderOfTrimmed(lines: seq<string>, extra: seq<string>, acc: map<string, HeaderValue>)
    requires AllBlank(extra)
    ensures HeaderOf(DropBlankTail(lines) + extra, acc) == HeaderOf(lines, acc)
  {
    hide HeaderOf, DropBlankTail, AllBlank;
    BlankTail(lines);
    var t := DropBlankTail(lines);
    HeaderConcat(t, extra, acc);
    HeaderConcat(t, lines[|t|..], acc);
    var h := HeaderOf(t, acc);
    if h.Ok? {
      HeaderBlank(extra, h.value);
      HeaderBlank(lines[|t|..], h.value);
    }
  }

  // ---- the printed text

  /** What the printer can be handed: single-line, stripped, CR-free fields and distinct revisions. */
  predicate Printable(d: Data) {
    && (forall i :: 0 <= i < |d.preamble| ==> Plain(d.preamble[i]) && RevHead(d.preamble[i]).None?)
    && GoodHeader(d.header) && FieldKeys(d.preamble) <= d.header.Keys
    && AllGood(d.commits) && DistinctRevs(d.commits)
  }

  /** The preamble as printed, without its trailing blank lines. */
  function Preamble(d: Data): seq<string> { DropBlankTail(Refresh(d.preamble, d.header)) }

  /** The blank lines between the preamble and the first record. */
  function Gap(d: Data): (r: seq<string>)
    ensures AllBlank(r)
  {
    (if Preamble(d) == [] then [""] else []) + [""] + (if d.commits == [] then [""] else [])
  }

  /** What a printable dictionary reads back as. */
  function Normal(d: Data): Data {
    Data(Preamble(d) + Gap(d), Restrict(d.header, FieldKeys(d.preamble)), ReadBackAll(NewestFirst(d.commits)))
  }

  lemma {:induction false} JoinAppend(a: seq<string>, b: seq<string>, sep: string)
    requires a != [] && b != []
    ensures Join(a + b, sep) == Join(a, sep) + sep + Join(b, sep)
  {
    if |a| > 1 {
      assert (a + b)[1..] == a[1..] + b;
      JoinAppend(a[1..], b, sep);
    } else {
      assert (a + b)[1..] == b;
    }
  }

  lemma HeadPlain(c: Commit)
    requires GoodCommit(c)
    ensures forall i :: 0 <= i < |HeadLines(c)| ==> Plain(HeadLines(c)[i])
  {
    hide FormatRefs, ReadBackRefs, ParseRefs, FenceLength, ShowNat, FieldLine, GoodRefs, GoodMsg, GoodFile;
    RefsRecognised(c.jira);
    RefsRecognised(c.changelogRef);
    NumberStripped(c.fileCount);
    NumberStripped(c.rev);
    FieldLinePlain("jira", FormatRefs(c.jira));
    FieldLinePlain("changelog-ref", FormatRefs(c.changelogRef));
    FieldLinePlain("date", c.date);
    FieldLinePlain("author", c.author);
    FieldLinePlain("files", ShowNat(c.fileCount));
    FieldLinePlain("note", c.note);
    assert Plain("## r" + ShowNat(c.rev)) && Plain("") && Plain(Fenceline(FenceLength(c.msg)) + "msg");
    hide Plain;
    var h := HeadLines(c);
    assert |h| == 9;
    assert Plain(h[0]) && Plain(h[1]) && Plain(h[2]) && Plain(h[3]) && Plain(h[4]);
    assert Plain(h[5]) && Plain(h[6]) && Plain(h[7]) && Plain(h[8]);
  }

  lemma FieldLinePlain(key: string, value: string)
    requires Plain(key) && Plain(value)
    ensures Plain(FieldLine(key, value))
  {}

  lemma TailPlain(c: Commit)
    requires GoodCommit(c)
    ensures forall i :: 0 <= i < |TailLines(c)| ==> Plain(TailLines(c)[i])
  {
    hide FenceLength, ListingLines, GoodRefs, GoodMsg, GoodWord, GoodFile;
    ListingPlain(Listing(c.files, c.truncated));
    assert Plain(Fenceline(FenceLength(c.msg)));
    assert Plain("~~~files") && Plain("~~~") && Plain("");
    hide Plain;
    var body := ListingLines(Listing(c.files, c.truncated));
    forall i | 0 <= i < |body| ensures Plain(body[i]) {
      assert PlainStart(body[i]);
    }
  }

  /** The lines of a printed record, and none of them holds a carriage return. */
  lemma CommitText(c: Commit)
    requires GoodCommit(c)
    ensures Split(FormatCommit(c), '\n') == CommitLinesOf(c)
    ensures forall i :: 0 <= i < |CommitLinesOf(c)| ==> '\r' !in CommitLinesOf(c)[i]
  {
    hide HeadLines, TailLines, Split, Join, GoodRefs, GoodFile, GoodWord;
    var head, tail := HeadLines(c), TailLines(c);
    HeadPlain(c);
    TailPlain(c);
    HeadShape(c);
    TailShape(c);
    JoinAppend(head, [c.msg] + tail, "\n");
    JoinAppend([c.msg], tail, "\n");
    assert head + [c.msg] + tail == head + ([c.msg] + tail);
    JoinOne(c.msg, "\n");
    assert FormatCommit(c) == Join(head, "\n") + ['\n'] + (c.msg + ['\n'] + Join(tail, "\n"));
    SplitAt(Join(head, "\n"), '\n', c.msg + ['\n'] + Join(tail, "\n"));
    SplitAt(c.msg, '\n', Join(tail, "\n"));
    SplitJoin(head, '\n');
    SplitJoin(tail, '\n');
    SplitFree(c.msg, '\n', '\r');
  }

  lemma JoinOne(s: string, sep: string)
    ensures Join([s], sep) == s
  {}

  lemma {:induction false} CommitsText(cs: seq<Commit>)
    requires cs != [] && AllGood(cs)
    ensures Split(Join(FormatCommits(cs), "\n"), '\n') == AllLines(cs)
    ensures forall i :: 0 <= i < |AllLines(cs)| ==> '\r' !in AllLines(cs)[i]
  {
    hide FormatCommit, CommitLinesOf, GoodCommit, Split;
    var c, rest := cs[0], cs[1..];
    CommitText(c);
    if rest == [] {
      assert AllLines(cs) == CommitLinesOf(c);
    } else {
      CommitsText(rest);
      SplitAt(FormatCommit(c), '\n', Join(FormatCommits(rest), "\n"));
      assert FormatCommits(cs)[1..] == FormatCommits(rest);
    }
  }

  lemma {:induction false} RefreshedPlain(d: Data, i: nat)
    requires Printable(d) && i < |d.preamble|
    ensures var r := Refresh(d.preamble, d.header)[i]; Plain(r) && RevHead(r).None?
  {
    hide FieldOf, RevHead, GoodHeader, AllGood, DistinctRevs, FieldKeys, Plain, FieldLine, ShowHeader, Underscored;
    RefreshAt(d.preamble, d.header, i);
    var line := d.preamble[i];
    if FieldOf(line).Some? && Underscored(FieldOf(line).value.key) in d.header {
      RefreshedLine(line, d.header);
    }
  }

  lemma PreamblePlain(d: Data)
    requires Printable(d)
    ensures forall i :: 0 <= i < |Preamble(d)| ==> Plain(Preamble(d)[i]) && RevHead(Preamble(d)[i]).None?
  {
    hide RevHead, Plain, Printable;
    forall i | 0 <= i < |Preamble(d)| ensures Plain(Preamble(d)[i]) && RevHead(Preamble(d)[i]).None? {
      assert Preamble(d)[i] == Refresh(d.preamble, d.header)[i];
      RefreshedPlain(d, i);
    }
  }

  lemma TopText(p: seq<string>)
    requires forall i :: 0 <= i < |p| ==> Plain(p[i])
    ensures Split(Join(p, "\n"), '\n') == if p == [] then [""] else p
  {
    if p != [] {
      SplitJoin(p, '\n');
    }
  }

  lemma BodyText(cs: seq<Commit>)
    requires AllGood(cs)
    ensures Split(Join(FormatCommits(cs), "\n"), '\n') == if cs == [] then [""] else AllLines(cs)
    ensures forall i :: 0 <= i < |AllLines(cs)| ==> '\r' !in AllLines(cs)[i]
  {
    hide GoodCommit;
    if cs != [] {
      CommitsText(cs);
    }
  }

  /** The lines of the printed text. */
  lemma PrintedLines(d: Data)
    requires Printable(d)
    ensures Split(Print(d), '\n') == Preamble(d) + Gap(d) + AllLines(NewestFirst(d.commits))
  {
    hide RevHead, Split, Join, GoodHeader, FieldKeys, GoodCommit, NewestFirst, FormatCommits, DistinctRevs, Plain,
      Preamble, AllLines, Print;
    var p, cs := Preamble(d), NewestFirst(d.commits);
    var top, body := Join(p, "\n"), Join(FormatCommits(cs), "\n");
    PreamblePlain(d);
    SortedGood(d.commits);
    SameEmpty(d.commits);
    TopText(p);
    BodyText(cs);
    NoLines();
    PrintParts(d);
    SplitAt(top, '\n', "" + ['\n'] + body);
    SplitAt("", '\n', body);
    SplitUnbroken("", '\n');
  }

  lemma NoLines()
    ensures AllLines([]) == []
  {}

  lemma PrintParts(d: Data)
    ensures Print(d) == Join(Preamble(d), "\n") + ['\n']
              + ("" + ['\n'] + Join(FormatCommits(NewestFirst(d.commits)), "\n"))
  {
    hide Join, NewestFirst, FormatCommits, DropBlankTail, Refresh;
  }

  lemma PrintedPlain(d: Data)
    requires Printable(d)
    ensures '\r' !in Print(d)
  {
    hide RevHead, Split, Join, GoodHeader, FieldKeys, GoodCommit, NewestFirst, AllLines, DistinctRevs, Print, Preamble;
    var lines := Preamble(d) + Gap(d) + AllLines(NewestFirst(d.commits));
    PreamblePlain(d);
    SortedGood(d.commits);
    BodyText(NewestFirst(d.commits));
    forall i | 0 <= i < |lines| ensures '\r' !in lines[i] {
      if |Preamble(d)| <= i < |Preamble(d) + Gap(d)| {
        assert lines[i] == Gap(d)[i - |Preamble(d)|] == "";
      }
    }
    PrintedLines(d);
    JoinSplit(Print(d), '\n');
    JoinFree(lines, "\n", '\r');
  }

  lemma PreambleDef(d: Data)
    ensures Preamble(d) == DropBlankTail(Refresh(d.preamble, d.header))
  {}

  lemma SameEmpty(cs: seq<Commit>)
    ensures (NewestFirst(cs) == []) == (cs == [])
  {
    assert |multiset(NewestFirst(cs))| == |NewestFirst(cs)|;
    assert |multiset(cs)| == |cs|;
  }

  lemma SortedGood(cs: seq<Commit>)
    requires AllGood(cs)
    ensures AllGood(NewestFirst(cs))
  {
    hide GoodCommit, NewestFirst;
    forall i | 0 <= i < |NewestFirst(cs)| ensures GoodCommit(NewestFirst(cs)[i]) {
      NewestFirstSame(cs, i);
    }
  }

  lemma {:induction false} FirstHeadAt(lines: seq<string>, i: nat, n: nat)
    requires i <= n <= |lines|
    requires forall k :: i <= k < n ==> RevHead(lines[k]).None?
    requires n < |lines| ==> RevHead(lines[n]).Some?
    ensures FirstHead(lines, i) == n
    decreases n - i
  {
    hide RevHead;
    if i < n {
      FirstHeadAt(lines, i + 1, n);
    }
  }

  lemma {:induction false} ReadBackAllAt(cs: seq<Commit>, i: nat)
    requires i < |cs|
    ensures ReadBackAll(cs)[i] == ReadBack(cs[i])
  {
    hide ReadBack;
    if i > 0 {
      ReadBackAllAt(cs[1..], i - 1);
    }
  }

  lemma ReadBackDescending(cs: seq<Commit>)
    requires Descending(cs)
    ensures Descending(ReadBackAll(cs))
  {
    hide ReadBackAll, ReadBackRefs;
    forall i, j | 0 <= i < j < |cs| ensures ReadBackAll(cs)[i].rev > ReadBackAll(cs)[j].rev {
      ReadBackAllAt(cs, i);
      ReadBackAllAt(cs, j);
    }
  }

  /** Parsing what was printed yields the normal form of the data: the central theorem. */
  lemma ParsePrint(d: Data)
    requires Printable(d)
    ensures Parse(Print(d)) == Ok(Normal(d))
  {
    hide RevHead, Split, Print, NewestFirst, GoodCommit, GoodHeaderValue, HeaderOf, Records, Preamble, FieldKeys,
      Plain, AllLines, CommitLinesOf;
    var cs := NewestFirst(d.commits);
    var top := Preamble(d) + Gap(d);
    var lines := top + AllLines(cs);
    PrintedLines(d);
    PrintedPlain(d);
    PreamblePlain(d);
    SortedGood(d.commits);
    NewestFirstDescending(d.commits);
    DescendingDistinct(cs);
    forall k | 0 <= k < |top| ensures RevHead(lines[k]).None? {
      if k >= |Preamble(d)| {
        assert lines[k] == Gap(d)[k - |Preamble(d)|];
        BlankLine(lines[k]);
      }
    }
    if |top| < |lines| {
      NonEmptyLines(cs);
      assert lines[|top|] == AllLines(cs)[0];
    }
    FirstHeadAt(lines, 0, |top|);
    assert lines[..|top|] == top && lines[|top|..] == AllLines(cs);
    assert HeaderOf(top, map[]) == Ok(Normal(d).header) by {
      PreambleDef(d);
      HeaderOfTrimmed(Refresh(d.preamble, d.header), Gap(d), map[]);
      HeaderReadBack(d.preamble, d.header, map[]);
      assert map[] + Normal(d).header == Normal(d).header;
    }
    RecordsRead(lines, |top|, cs, {});
    ReadBackDescending(cs);
    NewestFirstFixed(ReadBackAll(cs));
  }

  lemma NonEmptyLines(cs: seq<Commit>)
    requires AllLines(cs) != []
    ensures RevHead(AllLines(cs)[0]).Some?
  {
    hide CommitLinesOf, RevHead;
    FirstLine(cs[0]);
    HeadRecognised(cs[0].rev);
  }
}
