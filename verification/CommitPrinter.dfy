/** dict2commits: dictionary to markdown text. */
module CommitPrinter {
  import opened Wrappers
  import opened Text
  import opened CommitData
  import opened CommitParser

  function FormatRefs(refs: Refs): string {
    match refs
    case None => "?"
    case Some(keys) => if keys == [] then "none" else Join(keys, ", ")
  }

  /** `'~' * n` */
  function Fenceline(n: nat): (s: string)
    ensures |s| == n && forall i :: 0 <= i < n ==> s[i] == '~'
  {
    seq(n, i => '~')
  }

  /** Length of the longest line made of tildes only, trailing blanks aside. */
  function LongestTildes(lines: seq<string>): nat {
    if lines == [] then 0
    else
      var rest := LongestTildes(lines[1..]);
      var t := RStrip(lines[0]);
      if Tildes(t) == |t| && |t| > rest then |t| else rest
  }

  function FenceLength(text: string): nat {
    var longest := LongestTildes(Split(text, '\n'));
    if longest + 1 < 3 then 3 else longest + 1
  }

  /** `_field`: no trailing space when the value is empty. */
  function FieldLine(key: string, value: string): string {
    if value == "" then "- " + key + ":" else "- " + key + ": " + value
  }

  function ShowHeader(v: HeaderValue): string {
    match v
    case Word(text) => text
    case Number(n) => ShowInt(n)
  }

  function HeadLines(c: Commit): seq<string> {
    ["## r" + ShowNat(c.rev),
     FieldLine("jira", FormatRefs(c.jira)),
     FieldLine("changelog-ref", FormatRefs(c.changelogRef)),
     FieldLine("date", c.date),
     FieldLine("author", c.author),
     FieldLine("files", ShowNat(c.fileCount)),
     FieldLine("note", c.note),
     "",
     Fenceline(FenceLength(c.msg)) + "msg"]
  }

  function FileLines(files: seq<FileEntry>): (r: seq<string>)
    ensures |r| == |files|
    ensures forall i :: 0 <= i < |r| ==> r[i] == files[i].action + " " + files[i].path
  {
    if files == [] then [] else [files[0].action + " " + files[0].path] + FileLines(files[1..])
  }

  function TruncLine(n: nat): string { "... " + ShowNat(n) + " " + "more paths not listed" }

  function ListingLines(l: Listing): seq<string> {
    FileLines(l.files) + if l.truncated > 0 then [TruncLine(l.truncated)] else []
  }

  function TailLines(c: Commit): seq<string> {
    [Fenceline(FenceLength(c.msg)), ""]
    + if c.files != [] || c.truncated > 0 then
        ["~~~files"] + ListingLines(Listing(c.files, c.truncated)) + ["~~~", ""]
      else []
  }

  /** `_format_commit` */
  function FormatCommit(c: Commit): string {
    Join(HeadLines(c) + [c.msg] + TailLines(c), "\n")
  }

  function FormatCommits(cs: seq<Commit>): (r: seq<string>)
    ensures |r| == |cs|
  {
    if cs == [] then [] else [FormatCommit(cs[0])] + FormatCommits(cs[1..])
  }

  /** A header field of the preamble is rewritten from the header; any other line stays. */
  function RefreshLine(line: string, header: map<string, HeaderValue>): string {
    match FieldOf(line)
    case None => line
    case Some(f) =>
      var key := Underscored(f.key);
      if key in header then FieldLine(f.key, ShowHeader(header[key])) else line
  }

  function Refresh(lines: seq<string>, header: map<string, HeaderValue>): (r: seq<string>)
    ensures |r| == |lines|
  {
    if lines == [] then [] else [RefreshLine(lines[0], header)] + Refresh(lines[1..], header)
  }

  lemma {:induction false} RefreshAt(lines: seq<string>, header: map<string, HeaderValue>, i: nat)
    requires i < |lines|
    ensures Refresh(lines, header)[i] == RefreshLine(lines[i], header)
    ensures Refresh(lines[..i + 1], header) == Refresh(lines[..i], header) + [RefreshLine(lines[i], header)]
  {
    hide RefreshLine;
    if i == 0 {
      assert lines[..1] == [lines[0]] && lines[..1][1..] == [];
    } else {
      RefreshAt(lines[1..], header, i - 1);
      assert lines[..i + 1][1..] == lines[1..][..i] && lines[..i][1..] == lines[1..][..i - 1];
    }
  }

  function DropBlankTail(lines: seq<string>): (r: seq<string>)
    ensures r <= lines
    ensures r == [] || !Blank(r[|r| - 1])
  {
    if lines != [] && Blank(lines[|lines| - 1]) then DropBlankTail(lines[..|lines| - 1]) else lines
  }

  function Print(d: Data): string {
    Join(DropBlankTail(Refresh(d.preamble, d.header)), "\n") + "\n\n"
    + Join(FormatCommits(NewestFirst(d.commits)), "\n")
  }

  // ---- the printer as the script runs it

  /** `_fence_for` */
  method FenceFor(text: string) returns (fence: string)
    ensures fence == Fenceline(FenceLength(text))
  {
    hide Split, RStrip;
    var lines := Split(text, '\n');
    var longest := 0;
    ghost var all := LongestTildes(lines);
    for i := 0 to |lines|
      invariant all == var rest := LongestTildes(lines[i..]); if rest > longest then rest else longest
    {
      assert lines[i..][1..] == lines[i + 1..];
      var stripped := RStrip(lines[i]);
      if stripped != "" && Tildes(stripped) == |stripped| {
        longest := if |stripped| > longest then |stripped| else longest;
      }
    }
    fence := Fenceline(if longest + 1 < 3 then 3 else longest + 1);
  }

  /** `dict2commits` */
  method DictToCommits(d: Data) returns (text: string)
    ensures text == Print(d)
  {
    hide RefreshLine, FormatCommits, NewestFirst, Join, Blank;
    var preamble := [];
    for i := 0 to |d.preamble|
      invariant preamble == Refresh(d.preamble[..i], d.header)
    {
      RefreshAt(d.preamble, d.header, i);
      preamble := preamble + [RefreshLine(d.preamble[i], d.header)];
    }
    assert d.preamble[..|d.preamble|] == d.preamble;
    while preamble != [] && Blank(preamble[|preamble| - 1])
      invariant DropBlankTail(preamble) == DropBlankTail(Refresh(d.preamble, d.header))
    {
      preamble := preamble[..|preamble| - 1];
    }
    var body := FormatCommits(NewestFirst(d.commits));
    text := Join(preamble, "\n") + "\n\n" + Join(body, "\n");
  }
}
