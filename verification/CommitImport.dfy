/** update_from_svn: importing an append-only log, any number of times. */
module CommitImport {
  import opened Wrappers
  import opened Text
  import opened CommitData
  import opened CommitParser

  /** One `svn log` entry, fields stripped as `svn_log` leaves them. */
  datatype Entry = Entry(rev: nat, author: string, date: string, msg: string, files: seq<FileEntry>)

  /** A log is append-only with rising revisions. */
  predicate Rising(log: seq<Entry>) {
    forall i, j :: 0 <= i < j < |log| ==> log[i].rev < log[j].rev
  }

  // ---- issue keys: \b([A-Z][A-Z0-9]+-\d+)\b

  predicate IsWordChar(c: char) { IsAlpha(c) || IsDigit(c) || c == '_' }

  /** End of the run of capitals and digits from `p` on. */
  function CapsEnd(s: string, p: nat): (end: nat)
    requires p <= |s|
    ensures p <= end <= |s|
    ensures forall i :: p <= i < end ==> IsUpper(s[i]) || IsDigit(s[i])
    decreases |s| - p
  {
    if p < |s| && (IsUpper(s[p]) || IsDigit(s[p])) then CapsEnd(s, p + 1) else p
  }

  function DigitsEnd(s: string, p: nat): (end: nat)
    requires p <= |s|
    ensures p <= end <= |s|
    ensures forall i :: p <= i < end ==> IsDigit(s[i])
    decreases |s| - p
  {
    if p < |s| && IsDigit(s[p]) then DigitsEnd(s, p + 1) else p
  }

  /** Where the issue key that starts at `p` ends, if one starts there. */
  function KeyEnd(s: string, p: nat): (r: Option<nat>)
    requires p <= |s|
    ensures r.Some? ==> p < r.value <= |s|
  {
    if p < |s| && IsUpper(s[p]) && (p == 0 || !IsWordChar(s[p - 1])) then
      var dash := CapsEnd(s, p + 1);
      if dash > p + 1 && dash < |s| && s[dash] == '-' then
        var end := DigitsEnd(s, dash + 1);
        if end > dash + 1 && (end == |s| || !IsWordChar(s[end])) then Some(end) else None
      else None
    else None
  }

  /** `findall`: from left to right, each search resuming where the last match ended. */
  function FindAll(s: string, p: nat): seq<string>
    requires p <= |s|
    decreases |s| - p
  {
    if p == |s| then []
    else
      match KeyEnd(s, p)
      case Some(end) => [s[p..end]] + FindAll(s, end)
      case None => FindAll(s, p + 1)
  }

  /** The first occurrence of each, in order. */
  function Unique(found: seq<string>, keys: seq<string>): seq<string> {
    if found == [] then keys
    else Unique(found[1..], if found[0] in keys then keys else keys + [found[0]])
  }

  function IssueKeys(msg: string): seq<string> { Unique(FindAll(msg, 0), []) }

  /** Some issue key of the text reads `key`. */
  predicate Mentions(msg: string, key: string) {
    exists p :: 0 <= p < |msg| && KeyEnd(msg, p).Some? && msg[p..KeyEnd(msg, p).value] == key
  }

  /** Keys never overlap, so resuming after a match misses none. */
  lemma NoOverlap(s: string, p: nat, q: nat)
    requires p < q <= |s| && KeyEnd(s, p).Some? && q < KeyEnd(s, p).value
    ensures KeyEnd(s, q).None?
  {
    var dash := CapsEnd(s, p + 1);
    if q <= dash {
      assert IsWordChar(s[q - 1]);
    } else {
      assert IsDigit(s[q]);
    }
  }

  lemma {:induction false} FindAllComplete(s: string, p: nat, key: string)
    requires p <= |s|
    ensures key in FindAll(s, p)
       <==> exists q :: p <= q < |s| && KeyEnd(s, q).Some? && s[q..KeyEnd(s, q).value] == key
    decreases |s| - p
  {
    hide KeyEnd;
    if p < |s| {
      var end := KeyEnd(s, p);
      if end.Some? {
        FindAllComplete(s, end.value, key);
        forall q | p < q < end.value ensures KeyEnd(s, q).None? {
          NoOverlap(s, p, q);
        }
        assert key in FindAll(s, p) <==> key == s[p..end.value] || key in FindAll(s, end.value);
      } else {
        FindAllComplete(s, p + 1, key);
      }
    }
  }

  predicate NoRepeats(keys: seq<string>) { forall i, j :: 0 <= i < j < |keys| ==> keys[i] != keys[j] }

  lemma {:induction false} UniqueKeeps(found: seq<string>, keys: seq<string>)
    requires NoRepeats(keys)
    ensures NoRepeats(Unique(found, keys))
    ensures forall key :: key in Unique(found, keys) <==> key in found || key in keys
  {
    if found != [] {
      UniqueKeeps(found[1..], if found[0] in keys then keys else keys + [found[0]]);
    }
  }

  /** The keys of a message: each one mentioned, none twice. */
  lemma IssueKeysExact(msg: string, key: string)
    ensures key in IssueKeys(msg) <==> Mentions(msg, key)
    ensures NoRepeats(IssueKeys(msg))
  {
    hide KeyEnd;
    FindAllComplete(msg, 0, key);
    UniqueKeeps(FindAll(msg, 0), []);
  }

  // ---- one entry

  /** `files[:limit]`, negative limits counting from the end. */
  function Prefix(files: seq<FileEntry>, limit: int): (r: seq<FileEntry>)
    ensures r <= files
  {
    if limit >= |files| then files
    else if limit >= 0 then files[..limit]
    else if |files| + limit >= 0 then files[..|files| + limit]
    else []
  }

  function Imported(e: Entry, limit: int): Commit {
    var keys := IssueKeys(e.msg);
    Commit(e.rev, if keys == [] then None else Some(keys), None, e.date, e.author,
           |e.files|, "", e.msg, Prefix(e.files, limit),
           if |e.files| > limit then |e.files| - limit else 0)
  }

  /** Listed and omitted paths add up exactly when the limit is not negative. */
  lemma FileCountIff(e: Entry, limit: int)
    ensures var c := Imported(e, limit);
            |c.files| + c.truncated == c.fileCount <==> limit >= 0
  {
    hide IssueKeys;
  }

  // ---- one run

  /** `svn log -r start:HEAD`; nothing when `start` is past the head. */
  function SvnLog(log: seq<Entry>, start: int): seq<Entry> {
    if log == [] then []
    else (if log[0].rev >= start then [log[0]] else []) + SvnLog(log[1..], start)
  }

  function Revs(cs: seq<Commit>): (r: set<nat>)
    ensures forall i :: 0 <= i < |cs| ==> cs[i].rev in r
    ensures forall rev :: rev in r ==> exists i :: 0 <= i < |cs| && cs[i].rev == rev
  {
    set i | 0 <= i < |cs| :: cs[i].rev
  }

  function Added(entries: seq<Entry>, known: set<nat>, limit: int): seq<Commit> {
    if entries == [] then []
    else (if entries[0].rev in known then [] else [Imported(entries[0], limit)]) + Added(entries[1..], known, limit)
  }

  function MaxRev(entries: seq<Entry>): nat
    requires entries != []
  {
    if |entries| == 1 then entries[0].rev
    else if entries[0].rev > MaxRev(entries[1..]) then entries[0].rev else MaxRev(entries[1..])
  }

  /** `int(header.get(key, default))` */
  function IntHeader(header: map<string, HeaderValue>, key: string, default: int): Option<int> {
    if key !in header then Some(default)
    else
      match header[key]
      case Number(n) => Some(n)
      case Word(text) => IntOf(text)
  }

  function Watermark(d: Data): Option<int> { IntHeader(d.header, "last_imported", 0) }

  function Limit(d: Data): Option<int> { IntHeader(d.header, "path_limit", 10) }

  function NewHeader(header: map<string, HeaderValue>, entries: seq<Entry>, url: string, now: string)
    : map<string, HeaderValue>
  {
    var h := header["repo" := Word(url)];
    var h' := if entries == [] then h else h["last_imported" := Number(MaxRev(entries))];
    h'["imported_at" := Word(now)]
  }

  /** The dictionary after a run against `log`. */
  function Updated(d: Data, log: seq<Entry>, url: string, now: string): Data
    requires Watermark(d).Some? && Limit(d).Some?
  {
    var entries := SvnLog(log, Watermark(d).value + 1);
    Data(d.preamble, NewHeader(d.header, entries, url, now),
         NewestFirst(d.commits + Added(entries, Revs(d.commits), Limit(d).value)))
  }

  datatype ImportError = NoUrl | NotAnInteger | LogFailed

  /** Subversion refuses a revision below zero, so a run fails when its watermark is below -1. */
  predicate LogAnswers(d: Data)
    requires Watermark(d).Some?
  {
    Watermark(d).value + 1 >= 0
  }

  /** The dictionary as the script holds it, changed in place. */
  class Document {
    var preamble: seq<string>
    var header: map<string, HeaderValue>
    var commits: seq<Commit>

    constructor (d: Data)
      ensures View() == d
    {
      preamble, header, commits := d.preamble, d.header, d.commits;
    }

    function View(): Data
      reads this
    {
      Data(preamble, header, commits)
    }

    /** `update_from_svn`; `now` is the time of the run. Nothing changes when it fails. */
    method UpdateFromSvn(log: seq<Entry>, url: string, now: string) returns (r: Result<seq<Commit>, ImportError>)
      modifies this
      ensures var d := old(View());
              var target := if url != "" then url else RepoOf(d.header);
              if target == "" then r == Err(NoUrl) && View() == d
              else if Watermark(d).None? || Limit(d).None? then r == Err(NotAnInteger) && View() == d
              else if !LogAnswers(d) then r == Err(LogFailed) && View() == d
              else
                && View() == Updated(d, log, target, now)
                && r == Ok(Added(SvnLog(log, Watermark(d).value + 1), Revs(d.commits), Limit(d).value))
    {
      hide Imported, NewestFirst, SvnLog, IntHeader, MaxRev, Added, RepoOf, Revs;
      var target := if url != "" then url else RepoOf(header);
      if target == "" { return Err(NoUrl); }
      var limit := IntHeader(header, "path_limit", 10);
      if limit.None? { return Err(NotAnInteger); }
      var known := Revs(commits);
      var last := IntHeader(header, "last_imported", 0);
      if last.None? { return Err(NotAnInteger); }
      if last.value + 1 < 0 { return Err(LogFailed); }
      var entries := SvnLog(log, last.value + 1);
      var added := AppendNew(entries, known, limit.value);
      commits := NewestFirst(commits);
      header := header["repo" := Word(target)];
      if entries != [] {
        header := header["last_imported" := Number(MaxRev(entries))];
      }
      header := header["imported_at" := Word(now)];
      return Ok(added);
    }

    /** The loop over the log entries. */
    method AppendNew(entries: seq<Entry>, known: set<nat>, limit: int) returns (added: seq<Commit>)
      modifies this`commits
      ensures added == Added(entries, known, limit)
      ensures commits == old(commits) + added
    {
      hide Imported;
      added := [];
      for i := 0 to |entries|
        invariant Added(entries, known, limit) == added + Added(entries[i..], known, limit)
        invariant commits == old(commits) + added
      {
        assert entries[i..][1..] == entries[i + 1..];
        if entries[i].rev in known { continue; }
        var commit := Imported(entries[i], limit);
        ghost var rest := Added(entries[i + 1..], known, limit);
        assert added + ([commit] + rest) == (added + [commit]) + rest;
        assert (old(commits) + added) + [commit] == old(commits) + (added + [commit]);
        commits := commits + [commit];
        added := added + [commit];
      }
    }
  }

  function RepoOf(header: map<string, HeaderValue>): string {
    if "repo" !in header then ""
    else
      match header["repo"]
      case Word(text) => text
      case Number(n) => ShowInt(n)
  }
}
