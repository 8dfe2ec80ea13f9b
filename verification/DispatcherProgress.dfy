/** The dispatcher keeps up: what a run that ends well has done, that one can, and when a revision goes out twice. */
module DispatcherProgress {
  import opened Wrappers
  import opened Text
  import opened Dispatcher

  // ---- runs of steps

  lemma {:induction false} RunConcat(s: State, a: seq<Step>, b: seq<Step>)
    requires Run(s, a).Some?
    ensures Run(s, a + b) == Run(Run(s, a).value, b)
    decreases |a|
  {
    hide Next;
    if a == [] {
      assert a + b == b;
    } else {
      assert (a + b)[1..] == a[1..] + b;
      RunConcat(Next(s, a[0]).value, a[1..], b);
    }
  }

  lemma RunOne(s: State, step: Step)
    ensures Run(s, [step]) == Next(s, step)
  {
    hide Next;
    if Next(s, step).Some? {
      assert [step][1..] == [];
      assert Run(Next(s, step).value, []) == Some(Next(s, step).value);
    }
  }

  lemma RunMore(s: State, a: seq<Step>, t: State, step: Step)
    requires Run(s, a) == Some(t)
    ensures Run(s, a + [step]) == Next(t, step)
  {
    hide Next, Run;
    RunConcat(s, a, [step]);
    RunOne(t, step);
  }

  lemma RunsNeverShrink(s: State, step: Step)
    requires Next(s, step).Some?
    ensures |Next(s, step).value.runs| >= |s.runs|
  {
    hide NewestStamp, ToDispatch, ShowLog, SvnLog;
  }

  lemma {:induction false} RunsGrow(s: State, steps: seq<Step>)
    requires Run(s, steps).Some?
    ensures |Run(s, steps).value.runs| >= |s.runs|
    decreases |steps|
  {
    hide Next;
    if steps != [] {
      RunsNeverShrink(s, steps[0]);
      RunsGrow(Next(s, steps[0]).value, steps[1..]);
    }
  }

  // ---- a run that ends well has caught up

  /** A run is under way that began when the head was at least `h`. */
  predicate UnderWay(s: State, h: nat) {
    s.pc != Idle && s.head >= h && (s.pc == Started || s.run.head >= h)
  }

  lemma UnderWayStep(s: State, step: Step, h: nat)
    requires UnderWay(s, h) && Next(s, step).Some? && |Next(s, step).value.runs| == |s.runs|
    ensures UnderWay(Next(s, step).value, h)
  {
    hide NewestStamp, ToDispatch, ShowLog, SvnLog;
  }

  lemma {:induction false} StillUnderWay(s: State, steps: seq<Step>, h: nat)
    requires UnderWay(s, h) && Run(s, steps).Some? && |Run(s, steps).value.runs| == |s.runs|
    ensures UnderWay(Run(s, steps).value, h)
    decreases |steps|
  {
    hide Next, UnderWay;
    if steps != [] {
      var t := Next(s, steps[0]).value;
      RunsNeverShrink(s, steps[0]);
      RunsGrow(t, steps[1..]);
      UnderWayStep(s, steps[0], h);
      StillUnderWay(t, steps[1..], h);
    }
  }

  /** The stamp that ends a run, and what the run has fired by then. */
  lemma EndsWell(u: State, step: Step, h: nat)
    requires Inv(u) && UnderWay(u, h) && Next(u, step).Some?
    requires var v := Next(u, step).value; |v.runs| == |u.runs| + 1 && v.runs[|u.runs|].stamped
    ensures var v := Next(u, step).value;
            var r := v.runs[|u.runs|];
            && |v.stamps| == |u.stamps| + 1 && v.stamps[|u.stamps|] >= h
            && v.stamps[|u.stamps|] == (if r.last.Some? && r.last.value > r.head then r.last.value else r.head)
            && r.head == u.run.head
            && (r.last.Some? ==> forall rev :: rev in v.trunk && r.last.value < rev <= h ==> rev in r.fired)
  {
    hide NewestStamp, ToDispatch, ShowLog, SvnLog, StampsMatch, NothingSkipped, RunsFine, TrunkRevs, RecordFine;
    if u.pc == Firing([]) && step.Finish? {
      FiredFine(u);
    }
  }

  /**
    * Whatever happens meanwhile, a run that began when the head was at `t.head` and ends with a stamp leaves one of
    * at least `t.head`, and, if there was a stamp before,
        has dispatched every trunk revision from there up to `t.head`.
    */
  lemma KeepsUp(t: State, steps: seq<Step>, step: Step)
    requires Inv(t) && t.pc == Idle && Run(t, [Start] + steps).Some?
    requires var u := Run(t, [Start] + steps).value;
             && |u.runs| == |t.runs| && Next(u, step).Some?
             && var v := Next(u, step).value; |v.runs| == |t.runs| + 1 && v.runs[|t.runs|].stamped
    ensures var v := Next(Run(t, [Start] + steps).value, step).value;
            var r := v.runs[|t.runs|];
            && v.stamps != [] && v.stamps[|v.stamps| - 1] >= t.head
            && (r.last.Some? ==> forall rev :: rev in v.trunk && r.last.value < rev <= t.head ==> rev in r.fired)
  {
    hide Inv, Next, Run;
    var u := Run(t, [Start] + steps).value;
    assert Run(t, [Start]) == Next(t, Start) by { RunOne(t, Start); }
    StartStep(t);
    var s := Next(t, Start).value;
    RunConcat(t, [Start], steps);
    InvRun(t, [Start] + steps);
    StillUnderWay(s, steps, t.head);
    EndsWell(u, step, t.head);
  }

  lemma StartStep(t: State)
    requires t.pc == Idle
    ensures var s := Next(t, Start); s.Some? && s.value.runs == t.runs && UnderWay(s.value, t.head)
  {}

  // ---- the head a run works with is that of the moment it asked

  predicate Asking(s: State, h: nat) { s.pc != Idle && s.pc != Started && s.run.head == h }

  lemma AskingStep(s: State, step: Step, h: nat)
    requires Asking(s, h) && Next(s, step).Some? && |Next(s, step).value.runs| == |s.runs|
    ensures Asking(Next(s, step).value, h)
  {
    hide NewestStamp, ToDispatch, ShowLog, SvnLog;
  }

  lemma {:induction false} StillAsking(s: State, steps: seq<Step>, h: nat)
    requires Asking(s, h) && Run(s, steps).Some? && |Run(s, steps).value.runs| == |s.runs|
    ensures Asking(Run(s, steps).value, h)
    decreases |steps|
  {
    hide Next, Asking;
    if steps != [] {
      var t := Next(s, steps[0]).value;
      RunsNeverShrink(s, steps[0]);
      RunsGrow(t, steps[1..]);
      AskingStep(s, steps[0], h);
      StillAsking(t, steps[1..], h);
    }
  }

  /** The stamp a run leaves is the head at the moment it asked for it, or the one it read if that is greater. */
  lemma StampIsHead(t: State, steps: seq<Step>, step: Step)
    requires Inv(t) && t.pc == Started && Run(t, [AskHead] + steps).Some?
    requires var u := Run(t, [AskHead] + steps).value;
             && |u.runs| == |t.runs| && Next(u, step).Some?
             && var v := Next(u, step).value; |v.runs| == |t.runs| + 1 && v.runs[|t.runs|].stamped
    ensures var v := Next(Run(t, [AskHead] + steps).value, step).value;
            var r := v.runs[|t.runs|];
            && v.stamps != []
            && v.stamps[|v.stamps| - 1] == (if r.last.Some? && r.last.value > t.head then r.last.value else t.head)
  {
    hide Inv, Next, Run;
    var u := Run(t, [AskHead] + steps).value;
    assert Run(t, [AskHead]) == Next(t, AskHead) by { RunOne(t, AskHead); }
    AskStep(t);
    var s := Next(t, AskHead).value;
    RunConcat(t, [AskHead], steps);
    InvRun(t, [AskHead] + steps);
    StillAsking(s, steps, t.head);
    StartedBelow(t);
    StillUnderWay(s, steps, 0);
    EndsWell(u, step, 0);
  }

  lemma AskStep(t: State)
    requires t.pc == Started
    ensures var s := Next(t, AskHead);
            s.Some? && s.value.runs == t.runs && Asking(s.value, t.head) && UnderWay(s.value, 0)
  {}

  lemma StartedBelow(t: State)
    requires t.pc == Started
    ensures UnderWay(t, 0)
  {}

  // ---- nothing in the way

  /** `s` as it stands after the queries of a run that nothing disturbs. */
  function Queried(s: State, about: nat -> Heading): seq<Step> { [Start, AskHead, ReadStamp, Proceed(about)] }

  function Fires(n: nat): seq<Step> { seq(n, i => Fire) }

  lemma {:induction false} FireAll(s: State)
    requires s.pc.Firing?
    ensures var n := |s.pc.todo|;
            Run(s, Fires(n)) == Some(s.(pc := Firing([]), run := s.run.(fired := s.run.fired + s.pc.todo)))
    decreases |s.pc.todo|
  {
    var todo := s.pc.todo;
    if todo == [] {
      assert s.run.fired + [] == s.run.fired;
    } else {
      var t := Next(s, Fire).value;
      assert Fires(|todo|)[1..] == Fires(|todo| - 1);
      FireAll(t);
      assert (s.run.fired + [todo[0]]) + todo[1..] == s.run.fired + todo;
    }
  }

  lemma Asks(s: State)
    requires s.pc == Idle
    ensures Run(s, [Start, AskHead]) == Some(s.(pc := Asked(s.head), run := NO_RUN.(head := s.head)))
  {
    hide Run;
    RunOne(s, Start);
    RunMore(s, [Start], Next(s, Start).value, AskHead);
    assert [Start] + [AskHead] == [Start, AskHead];
  }

  lemma Reads(s: State, a: seq<Step>, t: State)
    requires Run(s, a) == Some(t) && t.pc.Asked? && NewestStamp(t.builds) == NewestOf(t.stamps)
    ensures var last := NewestOf(t.stamps);
            Run(s, a + [ReadStamp]) == Some(t.(pc := Decided(t.pc.head, last), run := t.run.(last := last)))
  {
    hide Run, NewestStamp;
    RunMore(s, a, t, ReadStamp);
  }

  lemma Proceeds(s: State, a: seq<Step>, t: State, about: nat -> Heading)
    requires Run(s, a) == Some(t) && t.pc.Decided?
    ensures var head, last := t.pc.head, t.pc.last;
            Run(s, a + [Proceed(about)])
            == Some(if last.None? then Stamped(t, head)
                    else if head <= last.value then Stamped(t, last.value)
                    else t.(pc := Firing(TrunkRevs(t.trunk, last.value, t.head)), run := t.run.(logHead := t.head)))
  {
    hide Run, TrunkRevs, ToDispatch, ShowLog, SvnLog, Stamped;
    RunMore(s, a, t, Proceed(about));
    if t.pc.last.Some? {
      ToDispatchExact(t.trunk, t.pc.last.value, t.head, about);
    }
  }

  lemma NewestRead(s: State)
    requires Inv(s)
    ensures NewestStamp(s.builds) == NewestOf(s.stamps)
    ensures s.stamps != [] ==> s.stamps[|s.stamps| - 1] <= s.head
  {
    hide NewestStamp, NothingSkipped, RunsFine, CurrentFine;
  }

  /** Where the queries of an undisturbed run lead. */
  lemma QueriesLead(s: State, about: nat -> Heading)
    requires Inv(s) && s.pc == Idle
    ensures var last := NewestOf(s.stamps);
            var r := NO_RUN.(head := s.head, last := last);
            Run(s, Queried(s, about))
            == Some(if last.None? || s.head <= last.value then Stamped(s.(run := r), s.head)
                    else s.(pc := Firing(TrunkRevs(s.trunk, last.value, s.head)), run := r.(logHead := s.head)))
  {
    hide Run, Inv, NewestStamp, TrunkRevs, Stamp;
    var last := NewestOf(s.stamps);
    NewestRead(s);
    Asks(s);
    var s2 := s.(pc := Asked(s.head), run := NO_RUN.(head := s.head));
    Reads(s, [Start, AskHead], s2);
    var s3 := s2.(pc := Decided(s.head, last), run := s2.run.(last := last));
    Proceeds(s, [Start, AskHead] + [ReadStamp], s3, about);
    assert [Start, AskHead] + [ReadStamp] + [Proceed(about)] == Queried(s, about);
  }

  /**
    * A run that nothing disturbs, started at any moment between two runs, ends with the head as its stamp and has
    * dispatched exactly the trunk revisions above the stamp before it.
    */
  lemma UndisturbedRun(s: State, about: nat -> Heading) returns (steps: seq<Step>)
    requires Inv(s) && s.pc == Idle
    ensures Run(s, steps).Some?
    ensures var t := Run(s, steps).value;
            && t.pc == Idle && t.head == s.head && t.trunk == s.trunk && t.stamps == s.stamps + [s.head]
            && |t.runs| == |s.runs| + 1 && t.runs[..|s.runs|] == s.runs && t.runs[|s.runs|].stamped
            && t.runs[|s.runs|].fired
               == (if s.stamps == [] then [] else TrunkRevs(s.trunk, s.stamps[|s.stamps| - 1], s.head))
  {
    hide Inv, Run, NewestStamp, TrunkRevs, Stamp;
    QueriesLead(s, about);
    StampBelowHead(s);
    steps := Queried(s, about);
    var t := Run(s, steps).value;
    if t.pc.Firing? {
      FireAll(t);
      var n := |t.pc.todo|;
      RunConcat(s, steps, Fires(n));
      var u := Run(t, Fires(n)).value;
      RunOne(u, Finish);
      RunConcat(s, steps + Fires(n), [Finish]);
      assert [] + t.pc.todo == t.pc.todo;
      steps := steps + Fires(n) + [Finish];
    } else if s.stamps != [] {
      NoneLeft(s.trunk, s.stamps[|s.stamps| - 1], s.head);
    }
  }

  lemma NoneLeft(trunk: set<nat>, lo: nat, hi: nat)
    ensures hi <= lo ==> TrunkRevs(trunk, lo, hi) == []
  {}

  lemma StampBelowHead(s: State)
    requires Inv(s) && s.pc == Idle
    ensures s.stamps != [] ==> s.stamps[|s.stamps| - 1] <= s.head
    ensures s.run == NO_RUN
  {}

  // ---- both ways of going out twice do happen

  /** A run fires its first revision and dies; the next one fires it again. */
  lemma CrashReplays(s: State, about: nat -> Heading) returns (steps: seq<Step>)
    requires Inv(s) && s.pc == Idle && s.stamps != []
    requires TrunkRevs(s.trunk, s.stamps[|s.stamps| - 1], s.head) != []
    ensures Run(s, steps).Some?
    ensures var t := Run(s, steps).value;
            var n, rev := |s.runs|, TrunkRevs(s.trunk, s.stamps[|s.stamps| - 1], s.head)[0];
            && |t.runs| == n + 2 && rev in t.runs[n].fired && rev in t.runs[n + 1].fired
            && !t.runs[n].stamped && t.runs[n + 1].stamped
  {
    hide Inv, Run, NewestStamp, TrunkRevs, Stamp;
    QueriesLead(s, about);
    StampBelowHead(s);
    NoneLeft(s.trunk, s.stamps[|s.stamps| - 1], s.head);
    var q := Queried(s, about);
    var t := Run(s, q).value;
    RunOne(t, Fire);
    RunConcat(s, q, [Fire]);
    var u := Next(t, Fire).value;
    RunOne(u, Crash);
    RunConcat(s, q + [Fire], [Crash]);
    var first := q + [Fire] + [Crash];
    var v := Next(u, Crash).value;
    InvRun(s, first);
    var more := UndisturbedRun(v, about);
    RunConcat(s, first, more);
    assert v.runs == s.runs + [u.run];
    assert Run(v, more).value.runs[|s.runs|] == v.runs[|s.runs|];
    steps := first + more;
  }

  /** A revision that comes in between the two queries of a run with news is fired by it and by the next run. */
  lemma LateCommitReplays(s: State, about: nat -> Heading) returns (steps: seq<Step>)
    requires Inv(s) && s.pc == Idle && s.stamps != [] && s.stamps[|s.stamps| - 1] < s.head
    ensures Run(s, steps).Some?
    ensures var t := Run(s, steps).value;
            var n, rev := |s.runs|, s.head + 1;
            && |t.runs| == n + 2 && rev in t.runs[n].fired && rev in t.runs[n + 1].fired
            && t.runs[n].stamped && t.runs[n].head < rev <= t.runs[n].logHead
  {
    hide Inv, Run, NewestStamp, TrunkRevs, Stamp, ToDispatch, ShowLog, SvnLog;
    var last, rev := s.stamps[|s.stamps| - 1], s.head + 1;
    var q := [Start, AskHead, Commit(true), ReadStamp, Proceed(about)];
    LateQueries(s, about);
    var t := Run(s, q).value;
    FireAll(t);
    var n := |t.pc.todo|;
    RunConcat(s, q, Fires(n));
    var u := Run(t, Fires(n)).value;
    RunOne(u, Finish);
    RunConcat(s, q + Fires(n), [Finish]);
    var first := q + Fires(n) + [Finish];
    var v := Next(u, Finish).value;
    assert Run(s, first) == Some(v);
    InvRun(s, first);
    TrunkRevsExact(t.trunk, last, rev);
    assert [] + t.pc.todo == t.pc.todo;
    assert rev in u.run.fired;
    assert v.runs == s.runs + [u.run.(stamped := true)] && v.stamps == s.stamps + [s.head];
    var more := UndisturbedRun(v, about);
    TrunkRevsExact(v.trunk, s.head, v.head);
    RunConcat(s, first, more);
    assert Run(v, more).value.runs[|s.runs|] == v.runs[|s.runs|];
    steps := first + more;
  }

  lemma LateQueries(s: State, about: nat -> Heading)
    requires Inv(s) && s.pc == Idle && s.stamps != [] && s.stamps[|s.stamps| - 1] < s.head
    ensures var last := s.stamps[|s.stamps| - 1];
            var trunk := s.trunk + {s.head + 1};
            Run(s, [Start, AskHead, Commit(true), ReadStamp, Proceed(about)])
            == Some(s.(head := s.head + 1, trunk := trunk, pc := Firing(TrunkRevs(trunk, last, s.head + 1)),
                       run := NO_RUN.(head := s.head, last := Some(last), logHead := s.head + 1)))
  {
    hide Run, Inv, NewestStamp, TrunkRevs, Stamp;
    var last, trunk := NewestOf(s.stamps), s.trunk + {s.head + 1};
    NewestRead(s);
    Asks(s);
    var s2 := s.(pc := Asked(s.head), run := NO_RUN.(head := s.head));
    RunMore(s, [Start, AskHead], s2, Commit(true));
    var s3 := s2.(head := s.head + 1, trunk := trunk);
    var a := [Start, AskHead] + [Commit(true)];
    Reads(s, a, s3);
    var s4 := s3.(pc := Decided(s.head, last), run := s3.run.(last := last));
    Proceeds(s, a + [ReadStamp], s4, about);
    assert a + [ReadStamp] + [Proceed(about)] == [Start, AskHead, Commit(true), ReadStamp, Proceed(about)];
  }

  // ---- reading stamps and log lines in any text

  /** A stamp stands at position `p`. */
  predicate StampAt(s: string, p: nat) {
    p + |MARK| < |s| && s[p..p + |MARK|] == MARK && IsDigit(s[p + |MARK|])
  }

  function NumberAt(s: string, p: nat): nat
    requires p <= |s|
  {
    var tail := s[p..];
    ReadNat(tail[..Digits(tail)])
  }

  /** The first stamp anywhere in a description counts, with all its digits; without one there is none. */
  lemma {:induction false} StampInIff(s: string)
    ensures StampIn(s).None? <==> forall p :: 0 <= p < |s| ==> !StampAt(s, p)
    ensures StampIn(s).Some? ==>
              exists p :: 0 <= p < |s| && StampAt(s, p) && (forall k :: 0 <= k < p ==> !StampAt(s, k))
                          && StampIn(s).value == NumberAt(s, p + |MARK|)
  {
    hide ReadNat, Digits;
    if |s| > |MARK| {
      assert s[0..|MARK|] == s[..|MARK|];
      if s[..|MARK|] == MARK && IsDigit(s[|MARK|]) {
        assert StampAt(s, 0);
      } else {
        assert !StampAt(s, 0);
        StampInIff(s[1..]);
        forall p | 0 <= p < |s| - 1 ensures StampAt(s[1..], p) <==> StampAt(s, p + 1) {
          StampShift(s, p);
        }
        if StampIn(s).Some? {
          var p :| 0 <= p < |s[1..]| && StampAt(s[1..], p) && (forall k :: 0 <= k < p ==> !StampAt(s[1..], k))
                   && StampIn(s[1..]).value == NumberAt(s[1..], p + |MARK|);
          assert s[1..][p + |MARK|..] == s[p + 1 + |MARK|..];
          forall k | 0 <= k < p + 1 ensures !StampAt(s, k) {
            if k > 0 { assert !StampAt(s[1..], k - 1); }
          }
        } else {
          forall p | 0 <= p < |s| ensures !StampAt(s, p) {
            if p > 0 { assert !StampAt(s[1..], p - 1); }
          }
        }
      }
    }
  }

  lemma StampShift(s: string, p: nat)
    requires p + 1 < |s|
    ensures StampAt(s[1..], p) <==> StampAt(s, p + 1)
  {
    if p + 1 + |MARK| < |s| {
      assert s[1..][p..p + |MARK|] == s[p + 1..p + 1 + |MARK|];
    }
  }

  /** `^r(\d+)\s*\|\s*([^|]+?)\s*\|` */
  predicate LogParts(line: string, num: string, gap: string, field: string, rest: string) {
    && line == "r" + num + gap + "|" + field + "|" + rest
    && AllDigits(num) && (forall i :: 0 <= i < |gap| ==> IsCSpace(gap[i])) && field != "" && '|' !in field
  }

  lemma LogLineIff(line: string, e: LogEntry)
    ensures LogLine(line) == Some(e)
       <==> exists num, gap, field, rest ::
              LogParts(line, num, gap, field, rest) && e == LogEntry(ReadNat(num), JavaTrim(field))
  {
    hide ReadNat, JavaTrim, LogLine;
    if LogLine(line) == Some(e) {
      LogSound(line);
    }
    forall num, gap, field, rest | LogParts(line, num, gap, field, rest)
      ensures LogLine(line) == Some(LogEntry(ReadNat(num), JavaTrim(field)))
    {
      LogComplete(line, num, gap, field, rest);
    }
  }

  /** The recogniser's own cuts. */
  lemma LogCuts(line: string) returns (num: string, gap: string, field: string, rest: string)
    requires LogLine(line).Some?
    ensures line == "r" + (num + (gap + "|" + (field + "|" + rest)))
    ensures AllDigits(num) && (forall i :: 0 <= i < |gap| ==> IsCSpace(gap[i])) && field != "" && '|' !in field
    ensures LogLine(line).value == LogEntry(ReadNat(num), JavaTrim(field))
  {
    hide ReadNat, JavaTrim, BarredField;
    var after := line[1..];
    var n := Digits(after);
    num := after[..n];
    gap, field, rest := BarCuts(after[n..]);
    assert line == "r" + after && after == num + after[n..];
  }

  lemma BarCuts(s: string) returns (gap: string, field: string, rest: string)
    requires BarredField(s).Some?
    ensures s == gap + "|" + (field + "|" + rest)
    ensures (forall i :: 0 <= i < |gap| ==> IsCSpace(gap[i])) && field != "" && '|' !in field
    ensures BarredField(s) == Some(JavaTrim(field))
  {
    hide JavaTrim;
    var bar := Find(s, '|');
    var tail := s[bar + 1..];
    var end := Find(tail, '|');
    gap, field, rest := s[..bar], tail[..end], tail[end + 1..];
    assert tail == field + "|" + rest;
    assert s == gap + "|" + tail;
  }

  lemma LogSound(line: string)
    requires LogLine(line).Some?
    ensures exists num, gap, field, rest ::
              LogParts(line, num, gap, field, rest) && LogLine(line).value == LogEntry(ReadNat(num), JavaTrim(field))
  {
    hide ReadNat, JavaTrim, LogLine;
    var num, gap, field, rest := LogCuts(line);
    LogGlue(line, num, gap, field, rest);
    assert LogParts(line, num, gap, field, rest);
  }

  lemma LogGlue(line: string, num: string, gap: string, field: string, rest: string)
    requires line == "r" + (num + (gap + "|" + (field + "|" + rest)))
    ensures line == "r" + num + gap + "|" + field + "|" + rest
  {
    assert "r" + (num + (gap + "|" + (field + "|" + rest))) == "r" + num + gap + "|" + field + "|" + rest;
  }

  lemma LogComplete(line: string, num: string, gap: string, field: string, rest: string)
    requires LogParts(line, num, gap, field, rest)
    ensures LogLine(line) == Some(LogEntry(ReadNat(num), JavaTrim(field)))
  {
    hide Digits, BarredField, ReadNat, JavaTrim;
    var after := gap + ['|'] + (field + ['|'] + rest);
    LogUnglue(line, num, gap, field, rest);
    assert after[0] == if gap == "" then '|' else gap[0];
    assert !IsDigit(after[0]);
    NumberedLine(num, after);
    FieldAfterGap(gap, field, rest);
  }

  lemma LogUnglue(line: string, num: string, gap: string, field: string, rest: string)
    requires line == "r" + num + gap + "|" + field + "|" + rest
    ensures line == "r" + (num + (gap + ['|'] + (field + ['|'] + rest)))
  {
    assert "r" + (num + (gap + ['|'] + (field + ['|'] + rest))) == "r" + num + gap + "|" + field + "|" + rest;
  }

  lemma FieldAfterGap(gap: string, field: string, rest: string)
    requires (forall i :: 0 <= i < |gap| ==> IsCSpace(gap[i])) && field != "" && '|' !in field
    ensures BarredField(gap + ['|'] + (field + ['|'] + rest)) == Some(JavaTrim(field))
  {
    hide JavaTrim;
    var tail := field + ['|'] + rest;
    var s := gap + ['|'] + tail;
    assert '|' !in gap by { assert forall c :: c in gap ==> IsCSpace(c); }
    FindAfter(gap, '|', tail);
    assert s[|gap| + 1..] == tail;
    FindAfter(field, '|', rest);
    assert tail[..|field|] == field;
    assert forall i :: 0 <= i < |gap| ==> s[i] == gap[i];
  }
}
