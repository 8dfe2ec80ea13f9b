/** The per-commit dispatcher: one integer of durable state, and a crash at any moment. */
module Dispatcher {
  import opened Wrappers
  import opened Text

  // ---- the stamp in a build description

  const MARK := "lastRev="

  function Stamp(rev: nat): string { MARK + ShowNat(rev) }

  /** The first match of `lastRev=(\d+)` anywhere in a description. */
  function StampIn(s: string): Option<nat> {
    if |s| <= |MARK| then None
    else if s[..|MARK|] == MARK && IsDigit(s[|MARK|]) then
      var tail := s[|MARK|..];
      Some(ReadNat(tail[..Digits(tail)]))
    else StampIn(s[1..])
  }

  /** A stamp is read back as written. */
  lemma StampReadBack(rev: nat)
    ensures StampIn(Stamp(rev)) == Some(rev)
  {
    var digits := ShowNat(rev);
    var s := Stamp(rev);
    assert s[|MARK|..] == digits && s[|MARK|] == digits[0] && s[..|MARK|] == MARK;
    assert Digits(digits) == |digits|;
    assert digits[..|digits|] == digits;
  }

  /** Descriptions of the builds so far, oldest first; the newest stamp counts. */
  function NewestStamp(builds: seq<string>): Option<nat> {
    if builds == [] then None
    else
      match StampIn(builds[|builds| - 1])
      case Some(rev) => Some(rev)
      case None => NewestStamp(builds[..|builds| - 1])
  }

  /** `readLastRev`: walk back from the previous build. */
  method ReadLastRev(builds: seq<string>) returns (rev: Option<nat>)
    ensures rev == NewestStamp(builds)
  {
    var b := |builds|;
    assert builds[..b] == builds;
    while b > 0
      invariant 0 <= b <= |builds| && NewestStamp(builds) == NewestStamp(builds[..b])
    {
      assert builds[..b][..b - 1] == builds[..b - 1];
      var d := builds[b - 1];
      if d != "" {
        var m := StampIn(d);
        if m.Some? { return m; }
      }
      b := b - 1;
    }
    return None;
  }

  // ---- the log

  datatype LogEntry = LogEntry(rev: nat, author: string)

  /** Java's `trim`: control characters and blanks off both ends. */
  function JavaTrim(s: string): string {
    if s == "" then ""
    else if s[0] <= ' ' then JavaTrim(s[1..])
    else if s[|s| - 1] <= ' ' then JavaTrim(s[..|s| - 1])
    else s
  }

  /** `\s*\|\s*([^|]+?)\s*\|`, the group trimmed. */
  function BarredField(s: string): Option<string> {
    var bar := Find(s, '|');
    if bar == |s| || !(forall i :: 0 <= i < bar ==> IsCSpace(s[i])) then None
    else
      var field := s[bar + 1..];
      var end := Find(field, '|');
      if 0 < end < |field| then Some(JavaTrim(field[..end])) else None
  }

  /** `^r(\d+)\s*\|\s*([^|]+?)\s*\|` */
  function LogLine(line: string): Option<LogEntry> {
    if line == "" || line[0] != 'r' then None
    else
      var rest := line[1..];
      var n := Digits(rest);
      if n == 0 then None
      else
        match BarredField(rest[n..])
        case Some(author) => Some(LogEntry(ReadNat(rest[..n]), author))
        case None => None
  }

  function LogLines(lines: seq<string>): seq<LogEntry> {
    if lines == [] then []
    else (match LogLine(lines[0]) case Some(e) => [e] case None => []) + LogLines(lines[1..])
  }

  /** `parseLog` */
  method ParseLog(lines: seq<string>) returns (out: seq<LogEntry>)
    ensures out == LogLines(lines)
  {
    hide LogLine;
    out := [];
    for i := 0 to |lines|
      invariant LogLines(lines) == out + LogLines(lines[i..])
    {
      assert lines[i..][1..] == lines[i + 1..];
      var m := LogLine(lines[i]);
      if m.Some? {
        out := out + [m.value];
      }
    }
  }

  /** An author as Subversion shows one: no bar, no blank at either end. */
  predicate GoodAuthor(s: string) { s != "" && '|' !in s && s[0] > ' ' && s[|s| - 1] > ' ' }

  /** One header line of `svn log -q`. */
  function ShowEntry(e: LogEntry, date: string): string {
    "r" + ShowNat(e.rev) + " | " + e.author + " | " + date
  }

  lemma TrimAuthor(author: string)
    requires GoodAuthor(author)
    ensures JavaTrim(" " + author + " ") == author
  {
    var name := " " + author + " ";
    assert name[1..] == author + " " && (author + " ")[..|author|] == author;
    assert JavaTrim(author + " ") == JavaTrim(author) == author;
  }

  lemma NumberRun(num: string, tail: string)
    requires AllDigits(num) && (tail == "" || !IsDigit(tail[0]))
    ensures Digits(num + tail) == |num| && (num + tail)[..|num|] == num && (num + tail)[|num|..] == tail
  {
    var s := num + tail;
    assert forall i :: 0 <= i < |num| ==> s[i] == num[i];
    assert tail != "" ==> s[|num|] == tail[0];
  }

  lemma FieldBetweenBars(author: string, date: string)
    requires GoodAuthor(author)
    ensures BarredField(" | " + author + " | " + date) == Some(author)
  {
    hide JavaTrim;
    var name := " " + author + " ";
    var tail := name + ['|'] + (" " + date);
    var s := " | " + author + " | " + date;
    assert s == " " + ['|'] + tail;
    FindAfter(" ", '|', tail);
    assert s[2..] == tail;
    FindAfter(name, '|', " " + date);
    assert tail[..|name|] == name;
    TrimAuthor(author);
  }

  lemma NumberedLine(num: string, after: string)
    requires AllDigits(num) && (after == "" || !IsDigit(after[0]))
    ensures LogLine("r" + (num + after))
         == match BarredField(after) case Some(a) => Some(LogEntry(ReadNat(num), a)) case None => None
  {
    hide Digits, BarredField, ReadNat;
    var line := "r" + (num + after);
    assert line[0] == 'r' && line[1..] == num + after;
    NumberRun(num, after);
  }

  lemma EntryRecognised(e: LogEntry, date: string)
    requires GoodAuthor(e.author)
    ensures LogLine(ShowEntry(e, date)) == Some(e)
  {
    hide Digits, BarredField, ShowNat, ReadNat;
    var num, after := ShowNat(e.rev), " | " + e.author + " | " + date;
    FieldBetweenBars(e.author, date);
    assert after[0] == ' ';
    NumberedLine(num, after);
    assert ShowEntry(e, date) == "r" + (num + after);
  }

  /** Whatever stands where the author should, bars included, the revision comes through. */
  lemma RevRecognised(e: LogEntry, date: string)
    ensures LogLine(ShowEntry(e, date)).Some? && LogLine(ShowEntry(e, date)).value.rev == e.rev
  {
    hide Digits, BarredField, ShowNat, ReadNat;
    var num, after := ShowNat(e.rev), " | " + e.author + " | " + date;
    SomeField(e.author, date);
    assert after[0] == ' ';
    NumberedLine(num, after);
    assert ShowEntry(e, date) == "r" + (num + after);
  }

  lemma SomeField(author: string, date: string)
    ensures BarredField(" | " + author + " | " + date).Some?
  {
    hide JavaTrim;
    var tail := " " + author + " | " + date;
    var s := " | " + author + " | " + date;
    assert s == " " + ['|'] + tail;
    FindAfter(" ", '|', tail);
    assert s[2..] == tail;
    assert tail[|author| + 2] == '|' && tail[0] == ' ';
    assert '|' in tail;
  }

  /** An entry of the log and the date shown with it. */
  datatype Logged = Logged(entry: LogEntry, date: string)

  /** The text of a log: a dashed line before each entry and one at the end. */
  function ShowLog(log: seq<Logged>): seq<string> {
    ["----------"] + if log == [] then [] else [ShowEntry(log[0].entry, log[0].date)] + ShowLog(log[1..])
  }

  function Entries(log: seq<Logged>): seq<LogEntry> { seq(|log|, i requires 0 <= i < |log| => log[i].entry) }

  function Revs(entries: seq<LogEntry>): seq<nat> {
    seq(|entries|, i requires 0 <= i < |entries| => entries[i].rev)
  }

  lemma LogStep(log: seq<Logged>)
    requires log != []
    ensures LogLines(ShowLog(log))
         == (match LogLine(ShowEntry(log[0].entry, log[0].date)) case Some(e) => [e] case None => [])
            + LogLines(ShowLog(log[1..]))
  {
    hide LogLine, ShowEntry;
    var lines := ShowLog(log);
    assert LogLine("----------").None? by { DashesAreNone(); }
    assert lines[1..] == [ShowEntry(log[0].entry, log[0].date)] + ShowLog(log[1..]);
    assert lines[1..][1..] == ShowLog(log[1..]);
    assert LogLines(lines) == LogLines(lines[1..]);
  }

  lemma NoEntries()
    ensures LogLines(ShowLog([])) == []
  {
    hide LogLine;
    DashesAreNone();
    assert ShowLog([])[1..] == [];
  }

  /** Every entry of a log comes through, in order, and nothing else. */
  lemma {:induction false} LogReadBack(log: seq<Logged>)
    requires forall i :: 0 <= i < |log| ==> GoodAuthor(log[i].entry.author)
    ensures LogLines(ShowLog(log)) == Entries(log)
  {
    hide GoodAuthor, LogLine, ShowEntry, ShowLog, LogLines;
    if log == [] {
      NoEntries();
    } else {
      EntryRecognised(log[0].entry, log[0].date);
      LogReadBack(log[1..]);
      LogStep(log);
      assert Entries(log) == [log[0].entry] + Entries(log[1..]);
    }
  }

  /** The revisions come through even where the authors do not. */
  lemma {:induction false} RevsReadBack(log: seq<Logged>)
    ensures Revs(LogLines(ShowLog(log))) == Revs(Entries(log))
  {
    hide LogLine, ShowEntry, ShowLog, LogLines;
    if log == [] {
      NoEntries();
    } else {
      RevRecognised(log[0].entry, log[0].date);
      RevsReadBack(log[1..]);
      LogStep(log);
      var later := LogLines(ShowLog(log[1..]));
      var e := LogLine(ShowEntry(log[0].entry, log[0].date)).value;
      assert Revs([e] + later) == [e.rev] + Revs(later);
      assert Revs(Entries(log)) == [log[0].entry.rev] + Revs(Entries(log[1..]));
    }
  }

  lemma DashesAreNone()
    ensures LogLine("----------").None?
  {}

  // ---- the dispatcher as steps

  /** Revisions of the trunk above `lo` and not above `hi`, ascending: what `svn log -r lo+1:HEAD` lists. */
  function TrunkRevs(trunk: set<nat>, lo: nat, hi: nat): seq<nat>
    decreases hi
  {
    if hi <= lo then [] else TrunkRevs(trunk, lo, hi - 1) + if hi in trunk then [hi] else []
  }

  /** What the log says of a revision besides its number. */
  datatype Heading = Heading(author: string, date: string)

  /** `svn log -q -r lo+1:HEAD` with the head at `hi`. */
  function SvnLog(trunk: set<nat>, lo: nat, hi: nat, about: nat -> Heading): seq<Logged> {
    var revs := TrunkRevs(trunk, lo, hi);
    seq(|revs|, i requires 0 <= i < |revs| => Logged(LogEntry(revs[i], about(revs[i]).author), about(revs[i]).date))
  }

  function InsertRev(rev: nat, revs: seq<nat>): seq<nat> {
    if revs == [] || rev <= revs[0] then [rev] + revs else [revs[0]] + InsertRev(rev, revs[1..])
  }

  /** `sort { it.rev }` */
  function SortRevs(revs: seq<nat>): seq<nat> {
    if revs == [] then [] else InsertRev(revs[0], SortRevs(revs[1..]))
  }

  /** What the run is going to dispatch, given the lines of the log. */
  function ToDispatch(lines: seq<string>): seq<nat> { SortRevs(Revs(LogLines(lines))) }

  lemma {:induction false} SortedAlready(revs: seq<nat>)
    requires Ascending(revs)
    ensures SortRevs(revs) == revs
  {
    if revs != [] {
      SortedAlready(revs[1..]);
    }
  }

  /** Parsed and sorted, the log names exactly the trunk revisions it covers, whatever their authors are called. */
  lemma ToDispatchExact(trunk: set<nat>, lo: nat, hi: nat, about: nat -> Heading)
    ensures ToDispatch(ShowLog(SvnLog(trunk, lo, hi, about))) == TrunkRevs(trunk, lo, hi)
  {
    hide TrunkRevs, ShowLog, LogLines, Ascending;
    var log := SvnLog(trunk, lo, hi, about);
    RevsReadBack(log);
    assert Revs(Entries(log)) == TrunkRevs(trunk, lo, hi);
    TrunkRevsExact(trunk, lo, hi);
    SortedAlready(TrunkRevs(trunk, lo, hi));
  }

  /** Where the run under way stands. */
  datatype Pc =
    | Idle
    | Started
    | Asked(head: nat)
    | Decided(head: nat, last: Option<nat>)
    | Firing(todo: seq<nat>)

  /** History of one run. `logHead` is the head when the log was read, if it was. */
  datatype RunRecord = RunRecord(last: Option<nat>, head: nat, logHead: nat, fired: seq<nat>, stamped: bool)

  datatype State = State(
    // the repository
    head: nat, trunk: set<nat>,
    // durable: the descriptions of the kept builds
    builds: seq<string>,
    // the run under way
    pc: Pc, run: RunRecord,
    // history: finished and crashed runs, and the stamps set, in order
    runs: seq<RunRecord>, stamps: seq<nat>)

  datatype Step =
    | Commit(touchesTrunk: bool)
    | Start
    | AskHead
    | ReadStamp
    | Proceed(about: nat -> Heading)
    | Fire
    | Finish
    | Crash
    | Evict(kept: nat)

  const NO_RUN := RunRecord(None, 0, 0, [], false)

  predicate Init(s: State) {
    && s.builds == [] && s.pc == Idle && s.run == NO_RUN && s.runs == [] && s.stamps == []
    && forall r :: r in s.trunk ==> r <= s.head
  }

  /** The build ends with its description set to `rev`. */
  function Stamped(s: State, rev: nat): State {
    s.(builds := s.builds + [Stamp(rev)], pc := Idle, run := NO_RUN,
       runs := s.runs + [s.run.(stamped := true)], stamps := s.stamps + [rev])
  }

  function Next(s: State, step: Step): Option<State> {
    match step
    case Commit(touches) =>
      Some(s.(head := s.head + 1, trunk := if touches then s.trunk + {s.head + 1} else s.trunk))
    case Start => if s.pc == Idle then Some(s.(pc := Started, run := NO_RUN)) else None
    case AskHead =>
      if s.pc == Started then Some(s.(pc := Asked(s.head), run := s.run.(head := s.head))) else None
    case ReadStamp =>
      if s.pc.Asked? then
        var last := NewestStamp(s.builds);
        Some(s.(pc := Decided(s.pc.head, last), run := s.run.(last := last)))
      else None
    case Proceed(about) =>
      if s.pc.Decided? then
        var head := s.pc.head;
        match s.pc.last
        case None => Some(Stamped(s, head))
        case Some(last) =>
          if head <= last then Some(Stamped(s, last))
          else
            var lines := ShowLog(SvnLog(s.trunk, last, s.head, about));
            Some(s.(pc := Firing(ToDispatch(lines)), run := s.run.(logHead := s.head)))
      else None
    case Fire =>
      if s.pc.Firing? && s.pc.todo != [] then
        Some(s.(pc := Firing(s.pc.todo[1..]), run := s.run.(fired := s.run.fired + [s.pc.todo[0]])))
      else None
    case Finish => if s.pc == Firing([]) then Some(Stamped(s, s.run.head)) else None
    case Crash =>
      if s.pc == Idle then None
      else Some(s.(builds := s.builds + [""], pc := Idle, run := NO_RUN, runs := s.runs + [s.run]))
    case Evict(kept) =>
      // retention may drop old builds as long as the newest stamp stays
      if kept <= |s.builds| && NewestStamp(s.builds[|s.builds| - kept..]) == NewestStamp(s.builds) then
        Some(s.(builds := s.builds[|s.builds| - kept..]))
      else None
  }

  function Run(s: State, steps: seq<Step>): Option<State>
    decreases |steps|
  {
    if steps == [] then Some(s)
    else
      match Next(s, steps[0])
      case None => None
      case Some(t) => Run(t, steps[1..])
  }

  // ---- what every step keeps

  predicate Ascending(revs: seq<nat>) { forall i, j :: 0 <= i < j < |revs| ==> revs[i] < revs[j] }

  lemma {:induction false} TrunkRevsExact(trunk: set<nat>, lo: nat, hi: nat)
    ensures Ascending(TrunkRevs(trunk, lo, hi))
    ensures forall r :: r in TrunkRevs(trunk, lo, hi) <==> r in trunk && lo < r <= hi
    decreases hi
  {
    if hi > lo {
      TrunkRevsExact(trunk, lo, hi - 1);
      var front := TrunkRevs(trunk, lo, hi - 1);
      assert forall i :: 0 <= i < |front| ==> front[i] in front;
    }
  }

  predicate FiredIn(runs: seq<RunRecord>, rev: nat) { exists i :: 0 <= i < |runs| && rev in runs[i].fired }

  /** The revision the dispatcher adopted at the first stamp, and the newest stamp. */
  predicate StampsMatch(s: State) {
    && NewestStamp(s.builds) == (if s.stamps == [] then None else Some(s.stamps[|s.stamps| - 1]))
    && (forall i, j :: 0 <= i < j < |s.stamps| ==> s.stamps[i] <= s.stamps[j])
    && (forall i :: 0 <= i < |s.stamps| ==> s.stamps[i] <= s.head)
  }

  predicate RepoFine(s: State) { forall r :: r in s.trunk ==> r <= s.head }

  /** Every trunk revision between the bootstrap and the newest stamp has been fired. */
  predicate NothingSkipped(s: State) {
    s.stamps != [] ==>
      forall r :: r in s.trunk && s.stamps[0] < r <= s.stamps[|s.stamps| - 1] ==> FiredIn(s.runs, r)
  }

  function NewestOf(stamps: seq<nat>): Option<nat> { if stamps == [] then None else Some(stamps[|stamps| - 1]) }

  /** A record says what its run did: it fired a prefix of what the log listed above its `last`. */
  predicate RecordFine(trunk: set<nat>, r: RunRecord) {
    && Ascending(r.fired)
    && (r.last.None? ==> r.fired == [])
    && (r.last.Some? ==> forall v :: v in r.fired ==> v in trunk && r.last.value < v <= r.logHead)
    && (r.stamped && r.last.Some? && r.head > r.last.value ==>
          r.head <= r.logHead && forall v :: v in trunk && r.last.value < v <= r.logHead ==> v in r.fired)
  }

  /** The run under way. */
  predicate CurrentFine(s: State) {
    && !s.run.stamped
    && match s.pc
       case Idle => s.run == NO_RUN
       case Started => s.run == NO_RUN
       case Asked(head) => s.run == NO_RUN.(head := head) && head <= s.head
       case Decided(head, last) =>
         s.run == NO_RUN.(head := head, last := last) && head <= s.head && last == NewestOf(s.stamps)
       case Firing(todo) =>
         && s.run.last.Some? && s.run.last == NewestOf(s.stamps)
         && s.run.last.value < s.run.head <= s.run.logHead <= s.head
         && s.run.fired + todo == TrunkRevs(s.trunk, s.run.last.value, s.run.logHead)
  }

  predicate RunsFine(s: State) {
    && (forall i :: 0 <= i < |s.runs| ==> RecordFine(s.trunk, s.runs[i]) && s.runs[i].logHead <= s.head)
    && (forall i :: 0 <= i < |s.runs| && s.runs[i].stamped ==>
        s.stamps != [] && s.runs[i].head <= s.stamps[|s.stamps| - 1])
    && (forall i, j :: 0 <= i < j < |s.runs| && s.runs[i].stamped && s.runs[j].last.Some? ==>
        s.runs[i].head <= s.runs[j].last.value)
  }

  predicate Inv(s: State) {
    RepoFine(s) && StampsMatch(s) && NothingSkipped(s) && CurrentFine(s) && RunsFine(s)
  }

  lemma {:induction false} TrunkRevsGrow(trunk: set<nat>, lo: nat, hi: nat, later: nat)
    requires later > hi
    ensures TrunkRevs(trunk + {later}, lo, hi) == TrunkRevs(trunk, lo, hi)
    decreases hi
  {
    if hi > lo {
      TrunkRevsGrow(trunk, lo, hi - 1, later);
    }
  }

  lemma CommitKeeps(s: State, touches: bool)
    requires Inv(s)
    ensures Inv(Next(s, Commit(touches)).value)
  {
    hide NewestStamp, TrunkRevs, Ascending;
    var t := Next(s, Commit(touches)).value;
    if s.pc.Firing? && touches {
      TrunkRevsGrow(s.trunk, s.run.last.value, s.run.logHead, s.head + 1);
    }
    assert forall r :: r in s.trunk ==> r in t.trunk;
    assert forall r :: r in t.trunk && r != s.head + 1 ==> r in s.trunk;
    forall i | 0 <= i < |t.runs| ensures RecordFine(t.trunk, t.runs[i]) && t.runs[i].logHead <= t.head {
      assert RecordFine(s.trunk, s.runs[i]);
    }
    assert NothingSkipped(t);
  }

  lemma NewestOfStamped(builds: seq<string>, rev: nat)
    ensures NewestStamp(builds + [Stamp(rev)]) == Some(rev)
  {
    StampReadBack(rev);
  }

  /** Stamping keeps everything, provided what lies below the stamp is fired. */
  lemma StampKeeps(s: State, rev: nat)
    requires Inv(s) && rev <= s.head && (s.stamps != [] ==> s.stamps[|s.stamps| - 1] <= rev)
    requires var r := s.run.(stamped := true);
             RecordFine(s.trunk, r) && r.logHead <= s.head && r.head <= rev
             && (r.last.Some? ==> r.last == NewestOf(s.stamps))
             && (s.stamps != [] ==> forall v :: v in s.trunk && s.stamps[|s.stamps| - 1] < v <= rev ==> v in r.fired)
    ensures Inv(Stamped(s, rev))
  {
    hide NewestStamp, TrunkRevs, Ascending, RecordFine, Stamp;
    var t := Stamped(s, rev);
    NewestOfStamped(s.builds, rev);
    assert forall i :: 0 <= i < |s.runs| ==> t.runs[i] == s.runs[i];
    assert forall i :: 0 <= i < |s.stamps| ==> t.stamps[i] == s.stamps[i];
    assert t.runs[|s.runs|] == s.run.(stamped := true);
    forall v | t.stamps != [] && v in t.trunk && t.stamps[0] < v <= t.stamps[|t.stamps| - 1]
        ensures FiredIn(t.runs, v) {
      if s.stamps != [] && v <= s.stamps[|s.stamps| - 1] {
        assert FiredIn(s.runs, v);
        var i :| 0 <= i < |s.runs| && v in s.runs[i].fired;
        assert v in t.runs[i].fired;
      } else if s.stamps != [] {
        assert v in t.runs[|s.runs|].fired;
      }
    }
  }

  lemma ProceedKeeps(s: State, about: nat -> Heading)
    requires Inv(s) && s.pc.Decided?
    ensures Inv(Next(s, Proceed(about)).value)
  {
    hide NewestStamp, TrunkRevs, Stamp, Stamped, NothingSkipped, RunsFine, ToDispatch, ShowLog, SvnLog;
    if s.pc.last.None? || s.pc.head <= s.pc.last.value {
      EmptyRecordFine(s.trunk, s.run.(stamped := true));
    }
    if s.pc.last.None? {
      StampKeeps(s, s.pc.head);
    } else if s.pc.head <= s.pc.last.value {
      StampKeeps(s, s.pc.last.value);
    } else {
      var all := TrunkRevs(s.trunk, s.pc.last.value, s.head);
      assert [] + all == all;
      ToDispatchExact(s.trunk, s.pc.last.value, s.head, about);
      SameRuns(s, Next(s, Proceed(about)).value);
    }
  }

  lemma FireKeeps(s: State)
    requires Inv(s) && s.pc.Firing? && s.pc.todo != []
    ensures Inv(Next(s, Fire).value)
  {
    hide NewestStamp, TrunkRevs, Stamp, Stamped, NothingSkipped, RunsFine;
    SameRuns(s, Next(s, Fire).value);
    assert (s.run.fired + [s.pc.todo[0]]) + s.pc.todo[1..] == s.run.fired + s.pc.todo;
  }

  /** The list fired so far is fine as a record, stamped or not. */
  lemma FiredFine(s: State)
    requires Inv(s) && s.pc.Firing?
    ensures RecordFine(s.trunk, s.run)
    ensures s.pc.todo == [] ==> RecordFine(s.trunk, s.run.(stamped := true))
    ensures s.pc.todo == [] ==> forall v :: v in s.trunk && s.run.last.value < v <= s.run.logHead ==> v in s.run.fired
  {
    hide NewestStamp, TrunkRevs, Stamp, NothingSkipped, RunsFine, StampsMatch;
    var all := TrunkRevs(s.trunk, s.run.last.value, s.run.logHead);
    TrunkRevsExact(s.trunk, s.run.last.value, s.run.logHead);
    assert forall i :: 0 <= i < |s.run.fired| ==> s.run.fired[i] == all[i];
    assert forall v :: v in s.run.fired ==> v in all;
    if s.pc.todo == [] {
      assert s.run.fired + [] == s.run.fired;
    }
  }

  lemma FinishKeeps(s: State)
    requires Inv(s) && s.pc == Firing([])
    ensures Inv(Next(s, Finish).value)
  {
    hide NewestStamp, TrunkRevs, Stamp, Stamped, NothingSkipped, RecordFine;
    FiredFine(s);
    StampKeeps(s, s.run.head);
  }

  lemma NewestOfUnstamped(builds: seq<string>)
    ensures NewestStamp(builds + [""]) == NewestStamp(builds)
  {
    assert (builds + [""])[..|builds|] == builds;
    assert StampIn("").None?;
  }

  lemma CrashKeeps(s: State)
    requires Inv(s) && s.pc != Idle
    ensures Inv(Next(s, Crash).value)
  {
    hide NewestStamp, TrunkRevs, RecordFine;
    var t := Next(s, Crash).value;
    NewestOfUnstamped(s.builds);
    assert RecordFine(s.trunk, s.run) && s.run.logHead <= s.head by {
      if s.pc.Firing? { FiredFine(s); } else { EmptyRecordFine(s.trunk, s.run); }
    }
    assert forall i :: 0 <= i < |s.runs| ==> t.runs[i] == s.runs[i];
    assert NothingSkipped(t) by {
      forall v | FiredIn(s.runs, v) ensures FiredIn(t.runs, v) {
        var i :| 0 <= i < |s.runs| && v in s.runs[i].fired;
        assert v in t.runs[i].fired;
      }
    }
  }

  lemma EmptyRecordFine(trunk: set<nat>, r: RunRecord)
    requires r.fired == [] && (r.stamped && r.last.Some? ==> r.head <= r.last.value)
    ensures RecordFine(trunk, r)
  {}

  lemma InvStep(s: State, step: Step)
    requires Inv(s) && Next(s, step).Some?
    ensures Inv(Next(s, step).value)
  {
    match step
    case Commit(touches) => CommitKeeps(s, touches);
    case Proceed(about) => ProceedKeeps(s, about);
    case Fire => FireKeeps(s);
    case Finish => FinishKeeps(s);
    case Crash => CrashKeeps(s);
    case _ => QuietKeeps(s, step);
  }

  lemma QuietKeeps(s: State, step: Step)
    requires Inv(s) && Next(s, step).Some?
    requires step.Start? || step.AskHead? || step.ReadStamp? || step.Evict?
    ensures Inv(Next(s, step).value)
  {
    hide NewestStamp, TrunkRevs, NothingSkipped, RunsFine;
    assert NewestOf(s.stamps) == NewestStamp(s.builds);
    SameRuns(s, Next(s, step).value);
  }

  lemma SameRuns(s: State, t: State)
    requires RunsFine(s) && NothingSkipped(s)
    requires t.trunk == s.trunk && t.runs == s.runs && t.stamps == s.stamps && t.head == s.head
    ensures RunsFine(t) && NothingSkipped(t)
  {}

  lemma {:induction false} InvRun(s: State, steps: seq<Step>)
    requires Inv(s) && Run(s, steps).Some?
    ensures Inv(Run(s, steps).value)
    decreases |steps|
  {
    hide Inv, Next;
    if steps != [] {
      InvStep(s, steps[0]);
      InvRun(Next(s, steps[0]).value, steps[1..]);
    }
  }

  lemma InitInv(s: State)
    requires Init(s)
    ensures Inv(s)
  {}

  // ---- over every run

  /** Replay over skip: no trunk revision between the bootstrap and the newest stamp goes undispatched. */
  lemma NeverSkips(s: State, steps: seq<Step>, rev: nat)
    requires Init(s) && Run(s, steps).Some?
    requires var t := Run(s, steps).value;
             t.stamps != [] && rev in t.trunk && t.stamps[0] < rev <= t.stamps[|t.stamps| - 1]
    ensures FiredIn(Run(s, steps).value.runs, rev)
  {
    hide Run, RunsFine, CurrentFine, StampsMatch;
    InitInv(s);
    InvRun(s, steps);
  }

  /**
    * The stamp a run reads is the newest ever set, stamps never fall and never pass the head, and each run fires in
    * ascending order.
    */
  lemma StampsRise(s: State, steps: seq<Step>)
    requires Init(s) && Run(s, steps).Some?
    ensures var t := Run(s, steps).value;
            && NewestStamp(t.builds) == NewestOf(t.stamps)
            && (forall i, j :: 0 <= i < j < |t.stamps| ==> t.stamps[i] <= t.stamps[j] <= t.head)
            && (forall i :: 0 <= i < |t.runs| ==> Ascending(t.runs[i].fired))
  {
    hide Run, NewestStamp, Ascending, CurrentFine, NothingSkipped;
    InitInv(s);
    InvRun(s, steps);
  }

  /**
    * A revision is dispatched by two runs only if the first crashed before stamping or the revision came in between its
    * two queries.
    */
  lemma DispatchedAgain(s: State, steps: seq<Step>, i: nat, j: nat, rev: nat)
    requires Init(s) && Run(s, steps).Some?
    requires var t := Run(s, steps).value;
             i < j < |t.runs| && rev in t.runs[i].fired && rev in t.runs[j].fired
    ensures var t := Run(s, steps).value;
            !t.runs[i].stamped || t.runs[i].head < rev <= t.runs[i].logHead
  {
    hide Run, NewestStamp, Ascending, CurrentFine, NothingSkipped, StampsMatch;
    InitInv(s);
    InvRun(s, steps);
    var t := Run(s, steps).value;
    assert RecordFine(t.trunk, t.runs[i]) && RecordFine(t.trunk, t.runs[j]);
  }

  /** A stamped run that found something new dispatched exactly what the log listed above the stamp before it. */
  lemma DispatchesExactly(s: State, steps: seq<Step>, i: nat, rev: nat)
    requires Init(s) && Run(s, steps).Some?
    requires var t := Run(s, steps).value;
             i < |t.runs| && t.runs[i].stamped && t.runs[i].last.Some? && t.runs[i].head > t.runs[i].last.value
    ensures var t := Run(s, steps).value;
            var r := t.runs[i];
            rev in r.fired <==> rev in t.trunk && r.last.value < rev <= r.logHead
  {
    hide Run, NewestStamp, Ascending, CurrentFine, NothingSkipped, StampsMatch;
    InitInv(s);
    InvRun(s, steps);
    var t := Run(s, steps).value;
    assert RecordFine(t.trunk, t.runs[i]);
  }
}
