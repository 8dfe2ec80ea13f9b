/** commits2dict: markdown text to dictionary. */
module CommitParser {
  import opened Wrappers
  import opened Text
  import opened CommitData

  // ---- specification, by recursion on the remaining lines

  function NonBlankParts(parts: seq<string>): seq<string> {
    if parts == [] then []
    else (if Strip(parts[0]) != "" then [Strip(parts[0])] else []) + NonBlankParts(parts[1..])
  }

  function ParseRefs(value: string): Refs {
    var v := Strip(value);
    if v == "" || v == "?" then None
    else if Lower(v) == "none" then Some([])
    else Some(NonBlankParts(Split(v, ',')))
  }

  /** The first line from `i` on that closes a fence of length `n`, or the number of lines. */
  function FenceEnd(lines: seq<string>, i: nat, n: nat): (end: nat)
    requires i <= |lines|
    ensures i <= end <= |lines|
    decreases |lines| - i
  {
    if i == |lines| || Closes(lines[i], n) then i else FenceEnd(lines, i + 1, n)
  }

  datatype Listing = Listing(files: seq<FileEntry>, truncated: nat)

  function WithFileLine(acc: Listing, line: string): Listing {
    if Blank(line) then acc
    else
      match TruncOf(line)
      case Some(n) => acc.(truncated := n)
      case None =>
        match PathOf(line)
        case Some(f) => acc.(files := acc.files + [f])
        case None => acc
  }

  function ListingOf(lines: seq<string>, acc: Listing): Listing {
    if lines == [] then acc else ListingOf(lines[1..], WithFileLine(acc, lines[0]))
  }

  function WithFence(c: Commit, tag: string, body: string): (r: Commit)
    ensures r.rev == c.rev
  {
    if tag == "msg" then c.(msg := TrimNewlines(body))
    else if tag == "files" then
      var l := ListingOf(Split(body, '\n'), Listing([], 0));
      c.(files := l.files, truncated := l.truncated)
    else c
  }

  function WithField(c: Commit, key: string, value: string): (r: Commit)
    ensures r.rev == c.rev
  {
    if key == "jira" then c.(jira := ParseRefs(value))
    else if key == "changelog_ref" then c.(changelogRef := ParseRefs(value))
    else if key == "files" then c.(fileCount := if AllDigits(value) then ReadNat(value) else 0)
    else if key == "date" then c.(date := value)
    else if key == "author" then c.(author := value)
    else if key == "note" then c.(note := value)
    else c
  }

  /** A line that is no field and no fence; an indented one continues the note. */
  function WithOther(c: Commit, pending: string, line: string): (r: Commit)
    ensures r.rev == c.rev
  {
    if pending == "note" && line != "" && line[0] in " \t" && !Blank(line) then
      c.(note := Strip(c.note + " " + Strip(line)))
    else c
  }

  datatype Parsed = Parsed(commit: Commit, next: nat)

  /** One record's lines from `i` on, up to the next head. */
  function Record(lines: seq<string>, i: nat, c: Commit, pending: string): (r: Result<Parsed, ParseError>)
    requires i <= |lines|
    ensures r.Ok? ==> i <= r.value.next <= |lines|
    decreases |lines| - i
  {
    if i == |lines| || RevHead(lines[i]).Some? then Ok(Parsed(c, i))
    else
      match FenceOf(lines[i])
      case Some(fence) =>
        var end := FenceEnd(lines, i + 1, fence.length);
        if end == |lines| then Err(UnterminatedFence)
        else Record(lines, end + 1, WithFence(c, fence.tag, Join(lines[i + 1..end], "\n")), "")
      case None =>
        match FieldOf(lines[i])
        case Some(f) =>
          var key := Underscored(f.key);
          Record(lines, i + 1, WithField(c, key, f.value), key)
        case None => Record(lines, i + 1, WithOther(c, pending, lines[i]), pending)
  }

  function Records(lines: seq<string>, i: nat, seen: set<nat>): Result<seq<Commit>, ParseError>
    requires i <= |lines|
    decreases |lines| - i
  {
    if i == |lines| then Ok([])
    else
      match RevHead(lines[i])
      case None => Records(lines, i + 1, seen)
      case Some(rev) =>
        if rev in seen then Err(DuplicateRevision(rev))
        else
          match Record(lines, i + 1, BlankCommit(rev), "")
          case Err(e) => Err(e)
          case Ok(p) =>
            match Records(lines, p.next, seen + {rev})
            case Err(e) => Err(e)
            case Ok(cs) => Ok([p.commit] + cs)
  }

  predicate IsIntKey(key: string) { key == "last_imported" || key == "path_limit" }

  function HeaderValueOf(key: string, value: string): Result<HeaderValue, ParseError> {
    if IsIntKey(key) then
      match IntOf(value)
      case Some(n) => Ok(Number(n))
      case None => Err(BadHeader(key))
    else Ok(Word(value))
  }

  function WithHeaderLine(h: map<string, HeaderValue>, line: string)
    : Result<map<string, HeaderValue>, ParseError>
  {
    match FieldOf(line)
    case None => Ok(h)
    case Some(f) =>
      var key := Underscored(f.key);
      match HeaderValueOf(key, f.value)
      case Err(e) => Err(e)
      case Ok(v) => Ok(h[key := v])
  }

  function HeaderOf(lines: seq<string>, h: map<string, HeaderValue>)
    : Result<map<string, HeaderValue>, ParseError>
  {
    if lines == [] then Ok(h)
    else
      match WithHeaderLine(h, lines[0])
      case Err(e) => Err(e)
      case Ok(h') => HeaderOf(lines[1..], h')
  }

  /** The first record head from `i` on, or the number of lines. */
  function FirstHead(lines: seq<string>, i: nat): (n: nat)
    requires i <= |lines|
    ensures i <= n <= |lines|
    decreases |lines| - i
  {
    if i == |lines| || RevHead(lines[i]).Some? then i else FirstHead(lines, i + 1)
  }

  /** `sort(key=rev, reverse=True)`: stable, newest first. */
  function Insert(c: Commit, cs: seq<Commit>): (r: seq<Commit>)
    ensures multiset(r) == multiset(cs) + multiset{c}
  {
    if cs == [] || c.rev >= cs[0].rev then [c] + cs
    else
      assert cs == [cs[0]] + cs[1..];
      [cs[0]] + Insert(c, cs[1..])
  }

  function NewestFirst(cs: seq<Commit>): (r: seq<Commit>)
    ensures multiset(r) == multiset(cs)
  {
    if cs == [] then []
    else
      assert cs == [cs[0]] + cs[1..];
      Insert(cs[0], NewestFirst(cs[1..]))
  }

  function ParseLines(lines: seq<string>): Result<Data, ParseError> {
    var n := FirstHead(lines, 0);
    match HeaderOf(lines[..n], map[])
    case Err(e) => Err(e)
    case Ok(h) =>
      match Records(lines, n, {})
      case Err(e) => Err(e)
      case Ok(cs) => Ok(Data(lines[..n], h, NewestFirst(cs)))
  }

  function Parse(text: string): Result<Data, ParseError> {
    ParseLines(Split(ReplaceCrLf(text), '\n'))
  }

  // ---- the parser as the script runs it

  /** `_read_fence`: the body and the index after the closing fence. */
  method ReadFence(lines: seq<string>, index: nat, length: nat) returns (r: Result<(string, nat), ParseError>)
    requires index < |lines|
    ensures var end := FenceEnd(lines, index + 1, length);
            r == if end == |lines| then Err(UnterminatedFence) else Ok((Join(lines[index + 1..end], "\n"), end + 1))
  {
    hide Closes, Join;
    var i := index + 1;
    var body := [];
    while i < |lines|
      invariant index < i <= |lines|
      invariant body == lines[index + 1..i]
      invariant FenceEnd(lines, index + 1, length) == FenceEnd(lines, i, length)
    {
      if Closes(lines[i], length) {
        return Ok((Join(body, "\n"), i + 1));
      }
      body := body + [lines[i]];
      i := i + 1;
    }
    return Err(UnterminatedFence);
  }

  /** `_parse_files` */
  method ParseFiles(body: string) returns (files: seq<FileEntry>, truncated: nat)
    ensures Listing(files, truncated) == ListingOf(Split(body, '\n'), Listing([], 0))
  {
    hide TruncOf, PathOf, Split;
    files, truncated := [], 0;
    var lines := Split(body, '\n');
    for i := 0 to |lines|
      invariant ListingOf(lines, Listing([], 0)) == ListingOf(lines[i..], Listing(files, truncated))
    {
      assert lines[i..][1..] == lines[i + 1..];
      if Blank(lines[i]) { continue; }
      var trunc := TruncOf(lines[i]);
      if trunc.Some? {
        truncated := trunc.value;
        continue;
      }
      var path := PathOf(lines[i]);
      if path.Some? {
        files := files + [path.value];
      }
    }
  }

  /** The inner loop of `commits2dict`: one record from line `start`. */
  method ReadRecord(lines: seq<string>, start: nat, rev: nat) returns (r: Result<Parsed, ParseError>)
    requires start <= |lines|
    ensures r == Record(lines, start, BlankCommit(rev), "")
  {
    hide RevHead, FenceOf, FieldOf, WithField, WithOther, ListingOf, Join, FenceEnd, Underscored, Split, TrimNewlines;
    var c, i, pending := BlankCommit(rev), start, "";
    while i < |lines| && RevHead(lines[i]).None?
      invariant start <= i <= |lines|
      invariant Record(lines, start, BlankCommit(rev), "") == Record(lines, i, c, pending)
      decreases |lines| - i
    {
      var fence := FenceOf(lines[i]);
      if fence.Some? {
        var block := ReadFence(lines, i, fence.value.length);
        if block.Err? { return Err(block.error); }
        var body := block.value.0;
        if fence.value.tag == "msg" {
          c := c.(msg := TrimNewlines(body));
        } else if fence.value.tag == "files" {
          var files, truncated := ParseFiles(body);
          c := c.(files := files, truncated := truncated);
        }
        i, pending := block.value.1, "";
        continue;
      }
      var field := FieldOf(lines[i]);
      if field.Some? {
        pending := Underscored(field.value.key);
        c := WithField(c, pending, field.value.value);
      } else {
        c := WithOther(c, pending, lines[i]);
      }
      i := i + 1;
    }
    return Ok(Parsed(c, i));
  }

  /** `commits2dict` on text that holds a line break. */
  method CommitsToDict(source: string) returns (r: Result<Data, ParseError>)
    ensures r == Parse(source)
  {
    hide RevHead, FieldOf, HeaderValueOf, Record, Split, ReplaceCrLf, NewestFirst, Underscored;
    var lines := Split(ReplaceCrLf(source), '\n');
    var preamble: seq<string>, header: map<string, HeaderValue> := [], map[];
    var i := 0;
    ghost var n := FirstHead(lines, 0);
    while i < |lines| && RevHead(lines[i]).None?
      invariant 0 <= i <= n == FirstHead(lines, i)
      invariant preamble == lines[..i]
      invariant HeaderOf(lines[..n], map[]) == HeaderOf(lines[i..n], header)
    {
      assert lines[i..n][1..] == lines[i + 1..n];
      preamble := preamble + [lines[i]];
      var field := FieldOf(lines[i]);
      if field.Some? {
        var key := Underscored(field.value.key);
        var value := HeaderValueOf(key, field.value.value);
        if value.Err? { return Err(value.error); }
        header := header[key := value.value];
      }
      i := i + 1;
    }
    var commits := ReadRecords(lines, i);
    if commits.Err? { return Err(commits.error); }
    return Ok(Data(preamble, header, NewestFirst(commits.value)));
  }

  /** The outer loop of `commits2dict`, over the records from line `start`. */
  method ReadRecords(lines: seq<string>, start: nat) returns (r: Result<seq<Commit>, ParseError>)
    requires start <= |lines|
    ensures r == Records(lines, start, {})
  {
    hide RevHead, Record;
    var commits: seq<Commit>, i := [], start;
    var seen: set<nat> := {};
    ghost var whole := Records(lines, start, {});
    assert whole.Ok? ==> [] + whole.value == whole.value;
    while i < |lines|
      invariant start <= i <= |lines|
      invariant whole == match Records(lines, i, seen)
                         case Err(e) => Err(e)
                         case Ok(cs) => Ok(commits + cs)
    {
      var head := RevHead(lines[i]);
      if head.None? {
        i := i + 1;
        continue;
      }
      if head.value in seen { return Err(DuplicateRevision(head.value)); }
      var record := ReadRecord(lines, i + 1, head.value);
      if record.Err? { return Err(record.error); }
      ghost var tail := Records(lines, record.value.next, seen + {head.value});
      ghost var c := record.value.commit;
      assert tail.Ok? ==> commits + ([c] + tail.value) == (commits + [c]) + tail.value;
      seen := seen + {head.value};
      commits := commits + [record.value.commit];
      i := record.value.next;
    }
    assert commits + [] == commits;
    return Ok(commits);
  }
}
