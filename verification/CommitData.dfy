/** The dictionary behind commits.md and the line recognisers of svntrace.py. */
module CommitData {
  import opened Wrappers
  import opened Text

  /** None: nobody has looked yet; Some([]): somebody looked, nothing applies. */
  type Refs = Option<seq<string>>

  datatype FileEntry = FileEntry(action: string, path: string)

  datatype HeaderValue = Word(text: string) | Number(number: int)

  datatype Commit = Commit(
    rev: nat, jira: Refs, changelogRef: Refs, date: string, author: string,
    fileCount: nat, note: string, msg: string, files: seq<FileEntry>, truncated: nat)

  datatype Data = Data(preamble: seq<string>, header: map<string, HeaderValue>, commits: seq<Commit>)

  datatype ParseError =
    | BadHeader(key: string)
    | DuplicateRevision(rev: nat)
    | UnterminatedFence
    | MissingFile

  function BlankCommit(rev: nat): Commit {
    Commit(rev, None, None, "", "", 0, "", "", [], 0)
  }

  // ---- line recognisers

  /** `## r12`, white space allowed after the marks and at the end. */
  function RevHead(line: string): Option<nat> {
    if |line| > 2 && line[..2] == "##" && IsSpace(line[2]) then
      var t := Strip(line[2..]);
      if |t| > 1 && t[0] == 'r' && AllDigits(t[1..]) then Some(ReadNat(t[1..])) else None
    else None
  }

  predicate KeyChar(c: char) { IsAlpha(c) || IsDigit(c) || c == '_' || c == '-' }

  predicate TagChars(s: string) { forall i :: 0 <= i < |s| ==> KeyChar(s[i]) }

  predicate IsKey(s: string) { s != "" && IsAlpha(s[0]) && TagChars(s) }

  datatype Field = Field(key: string, value: string)

  /** `- key: value`; the value comes back stripped. */
  function FieldOf(line: string): Option<Field> {
    if |line| > 1 && line[0] == '-' && IsSpace(line[1]) then
      var t := LStrip(line[1..]);
      var colon := Find(t, ':');
      if colon < |t| && IsKey(t[..colon]) then Some(Field(t[..colon], Strip(t[colon + 1..]))) else None
    else None
  }

  /** `last-imported` and `last_imported` name the same field. */
  function Underscored(key: string): string {
    seq(|key|, i requires 0 <= i < |key| => if key[i] == '-' then '_' else key[i])
  }

  function Tildes(s: string): (n: nat)
    ensures n <= |s|
    ensures forall i :: 0 <= i < n ==> s[i] == '~'
    ensures n < |s| ==> s[n] != '~'
  {
    if s != "" && s[0] == '~' then 1 + Tildes(s[1..]) else 0
  }

  datatype Fence = Fence(length: nat, tag: string)

  /** `~~~tag` */
  function FenceOf(line: string): Option<Fence> {
    var n := Tildes(line);
    var tag := Strip(line[n..]);
    if n >= 3 && TagChars(tag) then Some(Fence(n, tag)) else None
  }

  /** A line of tildes only, at least `n` of them, closes a fence of length `n`. */
  predicate Closes(line: string, n: nat) {
    var t := RStrip(line);
    t != "" && Tildes(t) == |t| && |t| >= n
  }

  predicate IsAction(s: string) { |s| == 1 && s[0] in "AMDR" }

  /** `M /trunk/a.c`. When nothing but blanks follows the action, the lazy group takes the last one. */
  function PathOf(line: string): Option<FileEntry> {
    if |line| > 1 && line[0] in "AMDR" && IsSpace(line[1]) then
      var path := Strip(line[1..]);
      if path != "" then Some(FileEntry(line[..1], path))
      else if |line| > 2 then Some(FileEntry(line[..1], line[|line| - 1..]))
      else None
    else None
  }

  /** A number, white space and `tail`, after three dots and white space. */
  function CountBefore(line: string, tail: string): Option<nat> {
    if |line| > 3 && line[..3] == "..." && IsSpace(line[3]) then
      var t := Strip(line[3..]);
      var n := Digits(t);
      if 0 < n < |t| && IsSpace(t[n]) && LStrip(t[n..]) == tail then Some(ReadNat(t[..n])) else None
    else None
  }

  /** `... 7 more paths not listed` */
  function TruncOf(line: string): Option<nat> { CountBefore(line, "more paths not listed") }

  // ---- Python's int(): optional sign, digits, single underscores between digits

  predicate IntBody(s: string) {
    && s != "" && IsDigit(s[0]) && IsDigit(s[|s| - 1])
    && (forall i :: 0 <= i < |s| ==> IsDigit(s[i]) || s[i] == '_')
    && (forall i :: 0 <= i < |s| - 1 ==> IsDigit(s[i]) || IsDigit(s[i + 1]))
  }

  function DropUnderscores(s: string): (r: string)
    ensures (forall i :: 0 <= i < |s| ==> IsDigit(s[i]) || s[i] == '_') ==> forall i :: 0 <= i < |r| ==> IsDigit(r[i])
    ensures '_' !in s ==> r == s
  {
    if s == "" then "" else (if s[0] == '_' then "" else [s[0]]) + DropUnderscores(s[1..])
  }

  function IntOf(s: string): Option<int> {
    var t := Strip(s);
    var body := if t != "" && t[0] in "+-" then t[1..] else t;
    if IntBody(body) then
      var n: int := ReadNat(DropUnderscores(body));
      Some(if t[0] == '-' then -n else n)
    else None
  }

  function ShowInt(n: int): string { if n < 0 then "-" + ShowNat(-n) else ShowNat(n) }
}
