/** The command line: load, import, save -- again and again. */
module CommitCli {
  import opened Wrappers
  import opened Text
  import opened CommitData
  import opened CommitParser
  import opened CommitPrinter
  import opened CommitLines
  import opened CommitRoundTrip
  import opened CommitDocument
  import opened CommitClean
  import opened CommitTheorems
  import opened CommitImport
  import opened CommitRuns

  /** An entry as `svn_log` returns it: stripped single-line fields, no carriage returns. */
  predicate GoodEntry(e: Entry) {
    GoodWord(e.author) && GoodWord(e.date) && GoodMsg(e.msg) && GoodFiles(e.files)
  }

  predicate GoodLog(log: seq<Entry>) { Rising(log) && forall e :: e in log ==> GoodEntry(e) }

  lemma KeyGood(msg: string, key: string)
    requires Mentions(msg, key)
    ensures GoodRef(key)
  {
    hide CapsEnd, DigitsEnd;
    var p :| 0 <= p < |msg| && KeyEnd(msg, p).Some? && msg[p..KeyEnd(msg, p).value] == key;
    var dash := CapsEnd(msg, p + 1);
    forall i | 0 <= i < |key| ensures IsUpper(key[i]) || IsDigit(key[i]) || key[i] == '-' {
      assert key[i] == msg[p + i];
    }
    assert forall c :: c in key ==> IsUpper(c) || IsDigit(c) || c == '-';
  }

  lemma ImportedGood(e: Entry, limit: int)
    requires GoodEntry(e)
    ensures GoodCommit(Imported(e, limit))
  {
    hide GoodRef, GoodMsg, GoodFile, IssueKeys, Mentions;
    var keys := IssueKeys(e.msg);
    forall i | 0 <= i < |keys| ensures GoodRef(keys[i]) {
      assert keys[i] in keys;
      IssueKeysExact(e.msg, keys[i]);
      KeyGood(e.msg, keys[i]);
    }
    assert GoodFiles(Prefix(e.files, limit));
  }

  lemma UpdatedGood(d: Data, log: seq<Entry>, url: string, now: string)
    requires Watermark(d).Some? && Limit(d).Some?
    requires AllGood(d.commits) && DistinctRevs(d.commits) && GoodLog(log)
    ensures AllGood(Updated(d, log, url, now).commits)
  {
    hide GoodCommit, Watermark, Limit, Imported, GoodEntry, NewHeader, Updated, NextWatermark;
    UpdateExact(d, log, url, now);
    var u := Updated(d, log, url, now);
    forall i | 0 <= i < |u.commits| ensures GoodCommit(u.commits[i]) {
      var c := u.commits[i];
      assert c in u.commits;
      if c !in d.commits {
        var e :| e in log && e.rev > Watermark(d).value && e.rev !in Revs(d.commits)
            && c == Imported(e, Limit(d).value);
        ImportedGood(e, Limit(d).value);
      }
    }
  }

  lemma NewHeaderGood(header: map<string, HeaderValue>, entries: seq<Entry>, url: string, now: string)
    requires GoodHeader(header) && GoodWord(url) && GoodWord(now)
    ensures GoodHeader(NewHeader(header, entries, url, now))
    ensures header.Keys <= NewHeader(header, entries, url, now).Keys
  {
    hide GoodWord, MaxRev;
    assert !IsIntKey("repo") && !IsIntKey("imported_at");
  }

  lemma GoodHeaderInts(d: Data)
    requires GoodHeader(d.header)
    ensures Watermark(d).Some? && Limit(d).Some?
  {
    assert IsIntKey("last_imported") && IsIntKey("path_limit");
  }

  /** Importing keeps a dictionary printable. */
  lemma UpdatedPrintable(d: Data, log: seq<Entry>, url: string, now: string)
    requires Printable(d) && GoodLog(log) && GoodWord(url) && GoodWord(now)
    ensures Watermark(d).Some? && Limit(d).Some?
    ensures Printable(Updated(d, log, url, now)) && Descending(Updated(d, log, url, now).commits)
  {
    hide GoodHeader, Watermark, Limit, AllGood, NewHeader, RevHead, Plain, Added, SvnLog, FieldKeys, GoodWord,
      NewestFirst, Revs;
    GoodHeaderInts(d);
    UpdatedGood(d, log, url, now);
    UpdateExact(d, log, url, now);
    DescendingDistinct(Updated(d, log, url, now).commits);
    NewHeaderGood(d.header, SvnLog(log, Watermark(d).value + 1), url, now);
  }

  // ---- reading back and sorting

  lemma {:induction false} InsertReadBack(c: Commit, cs: seq<Commit>)
    ensures ReadBackAll(Insert(c, cs)) == Insert(ReadBack(c), ReadBackAll(cs))
  {
    hide ReadBackRefs;
    if cs != [] && c.rev < cs[0].rev {
      InsertReadBack(c, cs[1..]);
      var r := Insert(c, cs[1..]);
      assert ([cs[0]] + r)[1..] == r;
    } else {
      assert ([c] + cs)[1..] == cs;
    }
  }

  lemma {:induction false} SortReadBack(cs: seq<Commit>)
    ensures NewestFirst(ReadBackAll(cs)) == ReadBackAll(NewestFirst(cs))
  {
    hide ReadBack, Insert;
    if cs != [] {
      SortReadBack(cs[1..]);
      InsertReadBack(cs[0], NewestFirst(cs[1..]));
      assert ReadBackAll(cs)[1..] == ReadBackAll(cs[1..]);
    }
  }

  lemma {:induction false} ReadBackConcat(a: seq<Commit>, b: seq<Commit>)
    ensures ReadBackAll(a + b) == ReadBackAll(a) + ReadBackAll(b)
  {
    hide ReadBack;
    if a == [] {
      assert a + b == b;
    } else {
      assert (a + b)[1..] == a[1..] + b;
      ReadBackConcat(a[1..], b);
    }
  }

  lemma ReadBackTwice(c: Commit)
    ensures ReadBack(ReadBack(c)) == ReadBack(c)
  {}

  lemma {:induction false} ReadBackAllTwice(cs: seq<Commit>)
    ensures ReadBackAll(ReadBackAll(cs)) == ReadBackAll(cs)
  {
    hide ReadBack;
    if cs != [] {
      ReadBackTwice(cs[0]);
      ReadBackAllTwice(cs[1..]);
      assert ReadBackAll(cs)[1..] == ReadBackAll(cs[1..]);
    }
  }

  lemma RevsReadBack(cs: seq<Commit>)
    ensures Revs(ReadBackAll(cs)) == Revs(cs)
    ensures DistinctRevs(cs) ==> DistinctRevs(ReadBackAll(cs))
  {
    hide ReadBackAll, ReadBackRefs;
    forall i | 0 <= i < |cs| ensures ReadBackAll(cs)[i].rev == cs[i].rev {
      ReadBackAllAt(cs, i);
    }
  }

  /** Storing records as text between two sorts changes nothing that reading back would not change anyway. */
  lemma StoreBetween(x: seq<Commit>, more: seq<Commit>)
    ensures ReadBackAll(NewestFirst(ReadBackAll(x) + more)) == ReadBackAll(NewestFirst(x + more))
  {
    hide NewestFirst, ReadBackAll;
    SortReadBack(ReadBackAll(x) + more);
    SortReadBack(x + more);
    ReadBackConcat(ReadBackAll(x), more);
    ReadBackConcat(x, more);
    ReadBackAllTwice(x);
  }

  // ---- the preamble across two runs

  lemma RefreshLineAgain(line: string, h1: map<string, HeaderValue>, h2: map<string, HeaderValue>)
    requires GoodHeader(h1)
    requires FieldOf(line).Some? ==>
               Underscored(FieldOf(line).value.key) in h1 && Underscored(FieldOf(line).value.key) in h2
    ensures RefreshLine(RefreshLine(line, h1), h2) == RefreshLine(line, h2)
  {
    hide FieldOf, Underscored, FieldLine, ShowHeader, GoodHeader;
    if FieldOf(line).Some? {
      RefreshedLine(line, h1);
    }
  }

  lemma {:induction false} RefreshAgain(lines: seq<string>, h1: map<string, HeaderValue>, h2: map<string, HeaderValue>)
    requires GoodHeader(h1) && FieldKeys(lines) <= h1.Keys && FieldKeys(lines) <= h2.Keys
    ensures Refresh(Refresh(lines, h1), h2) == Refresh(lines, h2)
    ensures FieldKeys(Refresh(lines, h1)) == FieldKeys(lines)
  {
    hide FieldOf, Underscored, FieldLine, ShowHeader, GoodHeader;
    if lines != [] {
      assert Refresh(lines, h1)[1..] == Refresh(lines[1..], h1);
      RefreshAgain(lines[1..], h1, h2);
      RefreshLineAgain(lines[0], h1, h2);
      if FieldOf(lines[0]).Some? {
        RefreshedLine(lines[0], h1);
      }
    }
  }

  lemma {:induction false} RefreshSame(lines: seq<string>, h1: map<string, HeaderValue>, h2: map<string, HeaderValue>)
    requires FieldKeys(lines) <= h1.Keys && FieldKeys(lines) <= h2.Keys
    requires forall key :: key in FieldKeys(lines) ==> h1[key] == h2[key]
    ensures Refresh(lines, h1) == Refresh(lines, h2)
  {
    hide FieldOf, Underscored, FieldLine, ShowHeader;
    if lines != [] {
      RefreshSame(lines[1..], h1, h2);
    }
  }

  lemma {:induction false} FieldKeysConcat(a: seq<string>, b: seq<string>)
    ensures FieldKeys(a + b) == FieldKeys(a) + FieldKeys(b)
  {
    hide FieldOf, Underscored;
    if a == [] {
      assert a + b == b;
    } else {
      assert (a + b)[1..] == a[1..] + b;
      FieldKeysConcat(a[1..], b);
    }
  }

  lemma {:induction false} FieldKeysBlank(lines: seq<string>)
    requires AllBlank(lines)
    ensures FieldKeys(lines) == {}
  {
    hide FieldOf, Blank;
    if lines != [] {
      BlankLine(lines[0]);
      FieldKeysBlank(lines[1..]);
    }
  }

  /** Trading the trailing blank lines of a list for others changes neither its keys nor what it refreshes to. */
  lemma TradeBlanks(lines: seq<string>, extra: seq<string>, h: map<string, HeaderValue>)
    requires AllBlank(extra)
    ensures FieldKeys(DropBlankTail(lines) + extra) == FieldKeys(lines)
    ensures DropBlankTail(Refresh(DropBlankTail(lines) + extra, h)) == DropBlankTail(Refresh(lines, h))
  {
    hide DropBlankTail, FieldKeys, Refresh, AllBlank;
    BlankTail(lines);
    var t := DropBlankTail(lines);
    var tail := lines[|t|..];
    FieldKeysConcat(t, extra);
    FieldKeysConcat(t, tail);
    FieldKeysBlank(extra);
    FieldKeysBlank(tail);
    RefreshAppendBlank(t, extra, h);
    RefreshAppendBlank(t, tail, h);
    DropBlankAppend(Refresh(t, h), extra);
    DropBlankAppend(Refresh(t, h), tail);
  }

  /** The keys shown by a printed and re-read preamble are those of the original. */
  lemma NormalKeys(d: Data)
    requires Printable(d)
    ensures FieldKeys(Normal(d).preamble) == FieldKeys(d.preamble)
    ensures Normal(d).header.Keys == FieldKeys(d.preamble)
  {
    hide DropBlankTail, FieldKeys, Refresh, AllBlank, RevHead, Plain, AllGood, GoodHeader;
    var all := Refresh(d.preamble, d.header);
    RefreshAgain(d.preamble, d.header, d.header);
    TradeBlanks(all, Gap(d), d.header);
  }

  /** After a stored run, a later header gives the same top as refreshing the original with it. */
  lemma PreambleAcross(d: Data, next: Data, direct: Data)
    requires Printable(d)
    requires next.preamble == Normal(d).preamble && direct.preamble == d.preamble
    requires var keys := FieldKeys(d.preamble);
             keys <= next.header.Keys && keys <= direct.header.Keys
             && forall key :: key in keys ==> next.header[key] == direct.header[key]
    ensures Preamble(next) == Preamble(direct)
  {
    hide DropBlankTail, FieldKeys, Refresh, AllBlank, RevHead, Plain, AllGood, GoodHeader;
    var all := Refresh(d.preamble, d.header);
    TradeBlanks(all, Gap(d), next.header);
    RefreshAgain(d.preamble, d.header, next.header);
    RefreshSame(d.preamble, next.header, direct.header);
  }

  // ---- two runs through the file

  /**
    * The watermark a stored dictionary is read back with: the stored one, or none at all if the preamble has no line
    * for it.
    */
  lemma StoredInts(d: Data, u: Data)
    requires d.header.Keys == FieldKeys(d.preamble) && u.preamble == d.preamble
    requires Printable(u) && Limit(u) == Limit(d)
    ensures Limit(Normal(u)) == Limit(d)
    ensures Watermark(Normal(u)) == Watermark(u) || Watermark(Normal(u)) == Watermark(d)
  {
    hide Printable, FieldKeys, IntOf, Preamble, Gap, ReadBackAll, NewestFirst;
  }

  /** Records added in two stored runs, `a1` then `a2`, or in one. */
  lemma StoredLists(cs: seq<Commit>, a1: seq<Commit>, a2: seq<Commit>)
    requires DistinctRevs(cs + (a1 + a2))
    ensures var stored := ReadBackAll(NewestFirst(NewestFirst(cs + a1)));
            Revs(stored) == Revs(cs) + Revs(a1)
            && ReadBackAll(NewestFirst(NewestFirst(stored + a2)))
                == ReadBackAll(NewestFirst(NewestFirst(cs + (a1 + a2))))
  {
    hide NewestFirst, Revs, ReadBackAll;
    var c1, all := NewestFirst(cs + a1), cs + (a1 + a2);
    assert all == (cs + a1) + a2;
    assert DistinctRevs(cs + a1) by { assert forall i :: 0 <= i < |cs + a1| ==> all[i] == (cs + a1)[i]; }
    NewestFirstDescending(cs + a1);
    NewestFirstFixed(c1);
    RevsReadBack(c1);
    RevsOfSorted(cs + a1);
    RevsConcat(cs, a1);
    SortInSteps(cs + a1, a2);
    StoreBetween(c1, a2);
    SortTwice(ReadBackAll(c1) + a2, all);
  }

  lemma StoredRecords(d: Data, l1: seq<Entry>, l2: seq<Entry>, url: string, t1: string, t2: string)
    requires Printable(d) && Descending(d.commits) && d.header.Keys == FieldKeys(d.preamble)
    requires Rising(l2) && l1 <= l2 && Watermark(d).Some? && Limit(d).Some?
    requires Printable(Updated(d, l1, url, t1))
    ensures var n1 := Normal(Updated(d, l1, url, t1));
            && Watermark(n1).Some? && Limit(n1).Some?
            && ReadBackAll(NewestFirst(Updated(n1, l2, url, t2).commits))
               == ReadBackAll(NewestFirst(Updated(d, l2, url, t2).commits))
  {
    hide Printable, FieldKeys, SvnLog, Added, NewestFirst, Watermark, Limit, NewHeader, NextWatermark, Revs, Rising,
      ReadBackAll, Preamble, Gap, Descending, DistinctRevs;
    var last, limit, known := Watermark(d).value, Limit(d).value, Revs(d.commits);
    var more := l2[|l1|..];
    assert l2 == l1 + more;
    var u1 := Updated(d, l1, url, t1);
    var n1 := Normal(u1);
    WatermarkMoves(d, l1, url, t1);
    NextWatermarkBounds(l1, last);
    StoredInts(d, u1);
    var last' := Watermark(n1).value;
    var a1 := Added(SvnLog(l1, last + 1), known, limit);
    var a2 := Added(SvnLog(l2, last' + 1), known + Revs(a1), limit);
    assert n1.commits == ReadBackAll(NewestFirst(NewestFirst(d.commits + a1)));
    var u2 := Updated(n1, l2, url, t2);
    assert u2.commits == NewestFirst(n1.commits + Added(SvnLog(l2, last' + 1), Revs(n1.commits), limit));
    var v := Updated(d, l2, url, t2);
    assert v.commits == NewestFirst(d.commits + Added(SvnLog(l2, last + 1), known, limit));
    hide Updated, Normal;
    DescendingDistinct(d.commits);
    SecondRunAdds(l1, more, last, last', known, limit);
    JoinedDistinct(d, l2, last + 1, limit);
    StoredLists(d.commits, a1, a2);
  }

  lemma RisingPrefix(l1: seq<Entry>, l2: seq<Entry>)
    requires Rising(l2) && l1 <= l2
    ensures Rising(l1)
  {
    assert forall i :: 0 <= i < |l1| ==> l2[i] == l1[i];
  }

  lemma SortTwice(a: seq<Commit>, b: seq<Commit>)
    requires DistinctRevs(b) && ReadBackAll(NewestFirst(a)) == ReadBackAll(NewestFirst(b))
    ensures ReadBackAll(NewestFirst(NewestFirst(a))) == ReadBackAll(NewestFirst(NewestFirst(b)))
  {
    hide NewestFirst, ReadBackAll;
    SortReadBack(NewestFirst(a));
    SortReadBack(NewestFirst(b));
  }

  lemma StoredHeader(d: Data, l1: seq<Entry>, l2: seq<Entry>, url: string, t1: string, t2: string, key: string)
    requires Printable(d) && d.header.Keys == FieldKeys(d.preamble) && key in d.header
    requires Rising(l2) && l1 <= l2 && Watermark(d).Some? && Limit(d).Some?
    requires Printable(Updated(d, l1, url, t1))
    ensures var n1 := Normal(Updated(d, l1, url, t1));
            && Watermark(n1).Some? && Limit(n1).Some?
            && key in Updated(n1, l2, url, t2).header && key in Updated(d, l2, url, t2).header
            && Updated(n1, l2, url, t2).header[key] == Updated(d, l2, url, t2).header[key]
  {
    hide Printable, FieldKeys, SvnLog, Added, NewestFirst, IntOf, MaxRev, Revs, ReadBackAll, Preamble, Gap;
    var u1 := Updated(d, l1, url, t1);
    var n1 := Normal(u1);
    WatermarkMoves(d, l1, url, t1);
    StoredInts(d, u1);
    if key == "last_imported" {
      assert Watermark(n1) == Watermark(u1);
      HeadersAgree(d, l1, l2, url, t1, t2);
    }
  }

  // ---- the tool

  datatype CliError = Unreadable(error: ParseError) | Failed(reason: ImportError)

  function Target(d: Data, url: string): string { if url != "" then url else RepoOf(d.header) }

  /** `main`: the disk it leaves, or the error it reports, with the disk as it was. */
  function Invoked(disk: map<string, string>, path: string, log: seq<Entry>, url: string, now: string)
    : Result<map<string, string>, CliError>
  {
    match Load(path, disk)
    case Err(e) => Err(Unreadable(e))
    case Ok(d) =>
      if Target(d, url) == "" then Err(Failed(NoUrl))
      else if Watermark(d).None? || Limit(d).None? then Err(Failed(NotAnInteger))
      else if !LogAnswers(d) then Err(Failed(LogFailed))
      else Ok(disk[path := Print(Updated(d, log, Target(d, url), now))])
  }

  /** `main` as it runs: load, update in place, save. */
  method Invoke(disk: map<string, string>, path: string, log: seq<Entry>, url: string, now: string)
    returns (r: Result<map<string, string>, CliError>)
    ensures r == Invoked(disk, path, log, url, now)
  {
    hide Parse, Print, Updated, Watermark, Limit, Blank, Added, SvnLog, Revs;
    if path !in disk { return Err(Unreadable(MissingFile)); }
    var source := disk[path];
    if '\n' !in source && !Blank(source) {
      if source !in disk { return Err(Unreadable(MissingFile)); }
      source := disk[source];
    }
    var d := CommitsToDict(source);
    if d.Err? { return Err(Unreadable(d.error)); }
    var document := new Document(d.value);
    var added := document.UpdateFromSvn(log, url, now);
    if added.Err? { return Err(Failed(added.error)); }
    var text := DictToCommits(document.View());
    return Ok(disk[path := text]);
  }

  /** Texts as `_read_text` yields them: its universal newlines leave no carriage return. */
  predicate NoCr(disk: map<string, string>) { forall p :: p in disk ==> '\r' !in disk[p] }

  /** The file can be read, the repository is known and its log can be asked for. */
  predicate Ready(disk: map<string, string>, path: string, url: string) {
    && Load(path, disk).Ok?
    && var d := Load(path, disk).value;
       Target(d, url) != "" && (Watermark(d).Some? ==> LogAnswers(d))
  }

  lemma LoadedPrintable(disk: map<string, string>, path: string)
    requires NoCr(disk) && Load(path, disk).Ok?
    ensures var d := Load(path, disk).value;
            Printable(d) && Descending(d.commits) && d.header.Keys == FieldKeys(d.preamble)
  {
    hide Parse, Printable, Blank;
    var source := disk[path];
    ParsedPrintable(if '\n' !in source && !Blank(source) then disk[source] else source);
  }

  /** The repository is a good word, and a stored run leaves it known. */
  lemma TargetStands(d: Data, log: seq<Entry>, url: string, now: string)
    requires Printable(d) && d.header.Keys == FieldKeys(d.preamble) && GoodWord(url) && Target(d, url) != ""
    requires Watermark(d).Some? && Limit(d).Some?
    ensures GoodWord(Target(d, url))
    ensures Target(Normal(Updated(d, log, Target(d, url), now)), url) == Target(d, url)
  {
    hide GoodWord, FieldKeys, Watermark, Limit, MaxRev, SvnLog, Added, NewestFirst, ReadBackAll, Preamble, Gap,
      AllGood, RevHead, Plain;
    assert !IsIntKey("repo");
    assert "repo"[0] != "last_imported"[0] && "repo"[0] != "imported_at"[0];
  }

  /** One run on the disk, from data that can be read. */
  lemma InvokedStores(disk: map<string, string>, path: string, log: seq<Entry>, url: string, now: string)
    requires NoCr(disk) && Ready(disk, path, url) && GoodLog(log) && GoodWord(url) && GoodWord(now)
    ensures var d := Load(path, disk).value;
            && Watermark(d).Some? && Limit(d).Some?
            && var u := Updated(d, log, Target(d, url), now);
               && Printable(d) && Printable(u) && Descending(u.commits)
               && Invoked(disk, path, log, url, now) == Ok(disk[path := Print(u)]) && NoCr(disk[path := Print(u)])
               && Load(path, disk[path := Print(u)]) == Ok(Normal(u)) && Ready(disk[path := Print(u)], path, url)
  {
    hide Load, Print, Printable, Updated, Watermark, Limit, GoodWord, Normal, GoodLog, FieldKeys, Descending, Target;
    var d := Load(path, disk).value;
    LoadedPrintable(disk, path);
    assert Watermark(d).Some? && Limit(d).Some? by { UpdatedPrintable(d, log, now, now); }
    TargetStands(d, log, url, now);
    UpdatedPrintable(d, log, Target(d, url), now);
    var u := Updated(d, log, Target(d, url), now);
    SaveLoad(path, u, disk);
    PrintedPlain(u);
    StillAnswers(d, log, Target(d, url), now);
  }

  /** A stored run leaves a watermark from which the next run can ask. */
  lemma StillAnswers(d: Data, log: seq<Entry>, url: string, now: string)
    requires Watermark(d).Some? && Limit(d).Some? && LogAnswers(d)
    requires d.header.Keys == FieldKeys(d.preamble) && Printable(Updated(d, log, url, now))
    ensures var n := Normal(Updated(d, log, url, now)); Watermark(n).Some? && LogAnswers(n)
  {
    hide Printable, FieldKeys, Watermark, Limit, Normal, NewHeader, Added, SvnLog, NewestFirst, Revs, NextWatermark;
    WatermarkMoves(d, log, url, now);
    NextWatermarkBounds(log, Watermark(d).value);
    StoredInts(d, Updated(d, log, url, now));
  }

  /** Two runs of the tool leave a file that reads as the one a single run against the later log would leave. */
  lemma CliTwice(disk: map<string, string>, path: string, l1: seq<Entry>, l2: seq<Entry>, url: string, t1: string,
      t2: string)
    requires NoCr(disk) && Ready(disk, path, url)
    requires GoodLog(l2) && l1 <= l2 && GoodWord(url) && GoodWord(t1) && GoodWord(t2)
    ensures Invoked(disk, path, l1, url, t1).Ok? && Invoked(disk, path, l2, url, t2).Ok?
    ensures var disk1 := Invoked(disk, path, l1, url, t1).value;
            && NoCr(disk1) && Ready(disk1, path, url)
            && Invoked(disk1, path, l2, url, t2).Ok?
            && Load(path, Invoked(disk1, path, l2, url, t2).value) == Load(path, Invoked(disk, path, l2, url, t2).value)
  {
    hide Load, Print, Printable, Updated, Watermark, Limit, GoodWord, Normal, GoodLog, Rising, FieldKeys, Descending,
      Target, Ready, Invoked, NoCr;
    ReadyLoads(disk, path, url);
    var d := Load(path, disk).value;
    LoadedPrintable(disk, path);
    assert GoodLog(l1) && Rising(l2) by { PrefixGood(l1, l2); }
    InvokedStores(disk, path, l1, url, t1);
    InvokedStores(disk, path, l2, url, t2);
    var target := Target(d, url);
    var disk1 := disk[path := Print(Updated(d, l1, target, t1))];
    InvokedStores(disk1, path, l2, url, t2);
    TargetStands(d, l1, url, t1);
    SameNormal(d, l1, l2, target, t1, t2);
  }

  lemma ReadyLoads(disk: map<string, string>, path: string, url: string)
    requires Ready(disk, path, url)
    ensures Load(path, disk).Ok? && Target(Load(path, disk).value, url) != ""
  {}

  lemma PrefixGood(l1: seq<Entry>, l2: seq<Entry>)
    requires GoodLog(l2) && l1 <= l2
    ensures GoodLog(l1) && Rising(l2)
  {
    RisingPrefix(l1, l2);
    assert forall e :: e in l1 ==> e in l2;
  }

  lemma SameNormal(d: Data, l1: seq<Entry>, l2: seq<Entry>, url: string, t1: string, t2: string)
    requires Printable(d) && Descending(d.commits) && d.header.Keys == FieldKeys(d.preamble)
    requires Rising(l2) && l1 <= l2 && Watermark(d).Some? && Limit(d).Some?
    requires Printable(Updated(d, l1, url, t1))
    ensures var n1 := Normal(Updated(d, l1, url, t1));
            && Watermark(n1).Some? && Limit(n1).Some?
            && Normal(Updated(n1, l2, url, t2)) == Normal(Updated(d, l2, url, t2))
  {
    hide Printable, Watermark, Limit, Rising, FieldKeys, Descending, NewestFirst, ReadBackAll, NewHeader, Added,
      SvnLog, Refresh, DropBlankTail, Revs;
    var u1 := Updated(d, l1, url, t1);
    var n1 := Normal(u1);
    StoredRecords(d, l1, l2, url, t1, t2);
    var u2, v := Updated(n1, l2, url, t2), Updated(d, l2, url, t2);
    NormalKeys(u1);
    forall key | key in d.header ensures key in u2.header && key in v.header && u2.header[key] == v.header[key] {
      StoredHeader(d, l1, l2, url, t1, t2, key);
    }
    PreambleAcross(u1, u2, v);
    SameEmpty(u2.commits);
    SameEmpty(v.commits);
    assert Normal(u2).commits == Normal(v).commits;
    assert |u2.commits| == |v.commits| by {
      assert |ReadBackAll(NewestFirst(u2.commits))| == |ReadBackAll(NewestFirst(v.commits))|;
      SortLength(u2.commits);
      SortLength(v.commits);
    }
    assert Normal(u2).header == Normal(v).header;
  }

  lemma SortLength(cs: seq<Commit>)
    ensures |NewestFirst(cs)| == |cs|
  {
    assert |multiset(NewestFirst(cs))| == |multiset(cs)|;
  }

  function InvokedAll(disk: map<string, string>, path: string, runs: seq<Run>, url: string)
    : Result<map<string, string>, CliError>
    decreases |runs|
  {
    if runs == [] then Ok(disk)
    else
      match Invoked(disk, path, runs[0].log, url, runs[0].now)
      case Err(e) => Err(e)
      case Ok(disk1) => InvokedAll(disk1, path, runs[1..], url)
  }

  /** However often the tool is run against the growing log, the file reads as after one run against the last log. */
  lemma {:induction false} CliRunsAreOne(disk: map<string, string>, path: string, runs: seq<Run>, url: string)
    requires NoCr(disk) && Ready(disk, path, url)
    requires runs != [] && Growing(runs) && GoodWord(url)
    requires forall i :: 0 <= i < |runs| ==> GoodLog(runs[i].log) && GoodWord(runs[i].now)
    ensures var last := runs[|runs| - 1];
            && InvokedAll(disk, path, runs, url).Ok? && Invoked(disk, path, last.log, url, last.now).Ok?
            && Load(path, InvokedAll(disk, path, runs, url).value)
                == Load(path, Invoked(disk, path, last.log, url, last.now).value)
    decreases |runs|
  {
    hide Load, Invoked, GoodWord, GoodLog, Rising, Ready, NoCr;
    var last := runs[|runs| - 1];
    assert runs[0].log <= last.log by {
      if |runs| > 1 { assert runs[0].log <= runs[|runs| - 1].log; }
    }
    CliTwice(disk, path, runs[0].log, last.log, url, runs[0].now, last.now);
    if |runs| == 1 {
      assert runs[1..] == [];
    } else {
      var disk1 := Invoked(disk, path, runs[0].log, url, runs[0].now).value;
      assert runs[1..][|runs| - 2] == last;
      CliRunsAreOne(disk1, path, runs[1..], url);
    }
  }

  // ---- what the file tells

  /** `c` says of `e` what Subversion said, and leaves open what only a reader can decide. */
  ghost predicate Tells(c: Commit, e: Entry, limit: int) {
    && c.rev == e.rev && c.author == e.author && c.date == e.date && c.msg == e.msg
    && c.fileCount == |e.files| && c.files <= e.files
    && (limit >= 0 ==> c.truncated + |c.files| == |e.files| && |c.files| <= limit)
    && (limit >= 0 && c.truncated > 0 ==> |c.files| == limit)
    && c.note == "" && c.changelogRef.None?
    && (c.jira.None? <==> forall key :: !Mentions(e.msg, key))
    && (c.jira.Some? ==> NoRepeats(c.jira.value) && forall key :: key in c.jira.value <==> Mentions(e.msg, key))
  }

  lemma ImportedTells(e: Entry, limit: int)
    ensures Tells(Imported(e, limit), e, limit)
  {
    hide IssueKeys, Mentions, NoRepeats;
    forall key ensures key in IssueKeys(e.msg) <==> Mentions(e.msg, key) { IssueKeysExact(e.msg, key); }
    IssueKeysExact(e.msg, "");
    var keys := IssueKeys(e.msg);
    if keys != [] {
      assert keys[0] in keys;
    }
  }

  /** No issue key reads back as undecided or empty. */
  lemma KeyStays(msg: string, key: string)
    requires Mentions(msg, key)
    ensures key != "?" && Lower(key) != "none"
  {
    hide CapsEnd, DigitsEnd;
    var p :| 0 <= p < |msg| && KeyEnd(msg, p).Some? && msg[p..KeyEnd(msg, p).value] == key;
    var dash := CapsEnd(msg, p + 1);
    assert key[dash - p] == '-';
    assert Lower(key)[dash - p] == '-';
    assert '-' in Lower(key);
    assert '-' !in "none" && '-' !in "?";
    assert '-' in key;
  }

  lemma ImportedStays(e: Entry, limit: int)
    ensures ReadBack(Imported(e, limit)) == Imported(e, limit)
  {
    hide IssueKeys, Mentions, Lower, NoRepeats;
    var keys := IssueKeys(e.msg);
    if |keys| == 1 {
      assert keys[0] in keys;
      IssueKeysExact(e.msg, keys[0]);
      KeyStays(e.msg, keys[0]);
    }
  }

  predicate IsNew(d: Data, log: seq<Entry>, e: Entry)
    requires Watermark(d).Some?
  {
    e in log && e.rev > Watermark(d).value && e.rev !in Revs(d.commits)
  }

  /** The records `cs` tell of every old record and of every new entry, and of nothing else. */
  ghost predicate TellsAll(cs: seq<Commit>, d: Data, log: seq<Entry>)
    requires Watermark(d).Some? && Limit(d).Some?
  {
    && (forall c :: c in d.commits ==> ReadBack(c) in cs)
    && (forall e :: IsNew(d, log, e) ==> exists c :: c in cs && Tells(c, e, Limit(d).value))
    && (forall c :: c in cs ==> IsOld(d, c) || exists e :: IsNew(d, log, e) && Tells(c, e, Limit(d).value))
  }

  predicate IsOld(d: Data, c: Commit) { exists o :: o in d.commits && c == ReadBack(o) }

  lemma ReadBackMembers(cs: seq<Commit>, c: Commit)
    ensures c in cs ==> ReadBack(c) in ReadBackAll(cs)
    ensures c in ReadBackAll(cs) ==> exists o :: o in cs && c == ReadBack(o)
  {
    hide ReadBack;
    if c in cs {
      var i :| 0 <= i < |cs| && cs[i] == c;
      ReadBackAllAt(cs, i);
      assert ReadBackAll(cs)[i] in ReadBackAll(cs);
    }
    if c in ReadBackAll(cs) {
      var i :| 0 <= i < |cs| && ReadBackAll(cs)[i] == c;
      ReadBackAllAt(cs, i);
      assert cs[i] in cs;
    }
  }

  lemma UpdatedTells(d: Data, log: seq<Entry>, url: string, now: string)
    requires Watermark(d).Some? && Limit(d).Some? && DistinctRevs(d.commits) && Rising(log)
    ensures TellsAll(ReadBackAll(Updated(d, log, url, now).commits), d, log)
  {
    hide Updated, Watermark, Limit, Tells, ReadBack, ReadBackAll, Imported, NextWatermark, Revs, Descending;
    var u := Updated(d, log, url, now);
    var limit, r := Limit(d).value, ReadBackAll(u.commits);
    UpdateExact(d, log, url, now);
    forall c | c in d.commits ensures ReadBack(c) in r { ReadBackMembers(u.commits, c); }
    forall e | IsNew(d, log, e) ensures exists c :: c in r && Tells(c, e, limit) {
      var c := Imported(e, limit);
      assert IsAddition(d, log, c);
      ImportedStays(e, limit);
      ImportedTells(e, limit);
      ReadBackMembers(u.commits, c);
    }
    forall c | c in r ensures IsOld(d, c) || exists e :: IsNew(d, log, e) && Tells(c, e, limit) {
      ReadBackMembers(u.commits, c);
      var o :| o in u.commits && c == ReadBack(o);
      if o !in d.commits {
        var e :| e in log && e.rev > Watermark(d).value && e.rev !in Revs(d.commits) && o == Imported(e, limit);
        ImportedStays(e, limit);
        ImportedTells(e, limit);
        assert IsNew(d, log, e);
      }
    }
  }

  /**
    * After a run the file, read back, tells of every old record as it reads back, of every new entry, and of nothing
    * else.
    */
  lemma FileTells(disk: map<string, string>, path: string, log: seq<Entry>, url: string, now: string)
    requires NoCr(disk) && Ready(disk, path, url) && GoodLog(log) && GoodWord(url) && GoodWord(now)
    ensures Invoked(disk, path, log, url, now).Ok?
    ensures var disk1 := Invoked(disk, path, log, url, now).value;
            var d := Load(path, disk).value;
            && Load(path, disk1).Ok? && Watermark(d).Some? && Limit(d).Some?
            && var cs := Load(path, disk1).value.commits;
               Descending(cs) && TellsAll(cs, d, log)
  {
    hide Load, Print, Printable, Updated, Watermark, Limit, GoodWord, GoodLog, FieldKeys, Target, Ready, Invoked,
      NoCr, TellsAll, Preamble, Gap, Restrict, Descending;
    ReadyLoads(disk, path, url);
    InvokedStores(disk, path, log, url, now);
    var d := Load(path, disk).value;
    var target := Target(d, url);
    var u := Updated(d, log, target, now);
    LoadedPrintable(disk, path);
    DescendingDistinct(d.commits);
    assert Rising(log) by { PrefixGood(log, log); }
    UpdatedTells(d, log, target, now);
    NewestFirstFixed(u.commits);
    ReadBackDescending(u.commits);
  }

  // ---- the same bytes

  lemma NeverShouted(c: Commit)
    requires ReadBack(c) == c
    ensures !Shouted(c.jira) && !Shouted(c.changelogRef)
  {
    hide Lower;
    ReadBackRefsSame(c.jira);
    ReadBackRefsSame(c.changelogRef);
  }

  lemma ReadBackNeverShouts(cs: seq<Commit>)
    ensures NoneShouted(ReadBackAll(cs))
  {
    hide Shouted, ReadBack;
    forall i | 0 <= i < |cs| ensures var c := ReadBackAll(cs)[i]; !Shouted(c.jira) && !Shouted(c.changelogRef) {
      ReadBackAllAt(cs, i);
      ReadBackTwice(cs[i]);
      NeverShouted(ReadBack(cs[i]));
    }
  }

  /** A run neither adds a shouted reference nor takes one away from the records in memory. */
  lemma UpdatedShouts(d: Data, log: seq<Entry>, url: string, now: string)
    requires Watermark(d).Some? && Limit(d).Some? && DistinctRevs(d.commits) && Rising(log)
    ensures NoneShouted(Updated(d, log, url, now).commits) <==> NoneShouted(d.commits)
  {
    hide Updated, Watermark, Limit, Imported, NextWatermark, Revs, Descending, Shouted;
    var u := Updated(d, log, url, now);
    UpdateExact(d, log, url, now);
    if NoneShouted(d.commits) {
      forall i | 0 <= i < |u.commits| ensures !Shouted(u.commits[i].jira) && !Shouted(u.commits[i].changelogRef) {
        var c := u.commits[i];
        assert c in u.commits;
        if c in d.commits {
          var k :| 0 <= k < |d.commits| && d.commits[k] == c;
        } else {
          var e :| e in log && e.rev > Watermark(d).value && e.rev !in Revs(d.commits)
                   && c == Imported(e, Limit(d).value);
          ImportedStays(e, Limit(d).value);
          NeverShouted(c);
        }
      }
    }
    if NoneShouted(u.commits) {
      forall i | 0 <= i < |d.commits| ensures !Shouted(d.commits[i].jira) && !Shouted(d.commits[i].changelogRef) {
        assert d.commits[i] in u.commits;
        var k :| 0 <= k < |u.commits| && u.commits[k] == d.commits[i];
      }
    }
  }

  lemma SamePrintIff(u: Data, v: Data)
    requires Printable(u) && Printable(v) && Normal(u) == Normal(v) && NoneShouted(u.commits)
    ensures Print(u) == Print(v) <==> NoneShouted(v.commits)
  {
    hide Print, Printable, Normal, NoneShouted;
    ReprintIff(u);
    ReprintIff(v);
  }

  /** Two invocations leave the very bytes of one exactly when no lone reference in the old file is shouted. */
  lemma CliTwiceSameIff(disk: map<string, string>, path: string,
                        l1: seq<Entry>, l2: seq<Entry>, url: string, t1: string, t2: string)
    requires NoCr(disk) && Ready(disk, path, url)
    requires GoodLog(l2) && l1 <= l2 && GoodWord(url) && GoodWord(t1) && GoodWord(t2)
    ensures Invoked(disk, path, l1, url, t1).Ok?
    ensures var disk1 := Invoked(disk, path, l1, url, t1).value;
            && NoCr(disk1) && Ready(disk1, path, url) && NoneShouted(Load(path, disk1).value.commits)
            && (Invoked(disk1, path, l2, url, t2) == Invoked(disk, path, l2, url, t2)
                <==> NoneShouted(Load(path, disk).value.commits))
  {
    hide Load, Print, Printable, Updated, Watermark, Limit, GoodWord, Normal, GoodLog, Rising, FieldKeys, Descending,
      Target, Ready, Invoked, NoCr, NoneShouted, ReadBackAll, NewestFirst;
    ReadyLoads(disk, path, url);
    var d := Load(path, disk).value;
    LoadedPrintable(disk, path);
    assert GoodLog(l1) && Rising(l2) by { PrefixGood(l1, l2); }
    InvokedStores(disk, path, l1, url, t1);
    InvokedStores(disk, path, l2, url, t2);
    var target := Target(d, url);
    var u1 := Updated(d, l1, target, t1);
    var disk1 := disk[path := Print(u1)];
    InvokedStores(disk1, path, l2, url, t2);
    TargetStands(d, l1, url, t1);
    SameNormal(d, l1, l2, target, t1, t2);
    var n1 := Normal(u1);
    var u2, v := Updated(n1, l2, target, t2), Updated(d, l2, target, t2);
    NormalNeverShouts(u1);
    LoadedPrintable(disk1, path);
    DescendingDistinct(d.commits);
    DescendingDistinct(n1.commits);
    UpdatedShouts(n1, l2, target, t2);
    UpdatedShouts(d, l2, target, t2);
    SamePrintIff(u2, v);
    SameDisk(disk, path, Print(u1), Print(u2), Print(v));
  }

  lemma NormalNeverShouts(u: Data)
    ensures NoneShouted(Normal(u).commits)
  {
    hide NoneShouted, ReadBackAll, NewestFirst;
    ReadBackNeverShouts(NewestFirst(u.commits));
  }

  lemma SameDisk(disk: map<string, string>, path: string, first: string, a: string, b: string)
    ensures disk[path := first][path := a] == disk[path := b] <==> a == b
  {
    assert disk[path := first][path := a][path] == a && disk[path := b][path] == b;
  }

  /** And so do any number of invocations from two on. */
  lemma {:induction false} CliRunsSameIff(disk: map<string, string>, path: string, runs: seq<Run>, url: string)
    requires NoCr(disk) && Ready(disk, path, url)
    requires |runs| > 1 && Growing(runs) && GoodWord(url)
    requires forall i :: 0 <= i < |runs| ==> GoodLog(runs[i].log) && GoodWord(runs[i].now)
    ensures var last := runs[|runs| - 1];
            InvokedAll(disk, path, runs, url) == Invoked(disk, path, last.log, url, last.now)
            <==> NoneShouted(Load(path, disk).value.commits)
    decreases |runs|
  {
    hide Load, Invoked, GoodWord, GoodLog, Rising, Ready, NoCr, NoneShouted;
    ReadyLoads(disk, path, url);
    var last := runs[|runs| - 1];
    assert runs[0].log <= last.log;
    CliTwiceSameIff(disk, path, runs[0].log, last.log, url, runs[0].now, last.now);
    var disk1 := Invoked(disk, path, runs[0].log, url, runs[0].now).value;
    assert runs[1..][|runs| - 2] == last;
    assert InvokedAll(disk, path, runs, url) == InvokedAll(disk1, path, runs[1..], url);
    if |runs| == 2 {
      assert runs[1..] == [last] && [last][1..] == [];
      CliTwice(disk, path, runs[0].log, last.log, url, runs[0].now, last.now);
      assert InvokedAll(disk1, path, [last], url) == Invoked(disk1, path, last.log, url, last.now);
    } else {
      CliRunsSameIff(disk1, path, runs[1..], url);
    }
  }
}
