/** Import runs against a growing log, in memory. */
module CommitRuns {
  import opened Wrappers
  import opened CommitData
  import opened CommitParser
  import opened CommitRoundTrip
  import opened CommitDocument
  import opened CommitImport

  // ---- order

  /** Newest first and no revision twice: only one list holds these records. */
  lemma {:induction false} DescendingUnique(a: seq<Commit>, b: seq<Commit>)
    requires Descending(a) && Descending(b) && multiset(a) == multiset(b)
    ensures a == b
  {
    if a == [] {
      assert |multiset(a)| == |multiset(b)| == |b|;
    } else {
      assert |multiset(a)| == |multiset(b)| == |b|;
      assert a[0] in multiset(b) && b[0] in multiset(a);
      assert a == [a[0]] + a[1..] && b == [b[0]] + b[1..];
      assert multiset(a[1..]) == multiset(a) - multiset{a[0]};
      assert multiset(b[1..]) == multiset(b) - multiset{b[0]};
      DescendingUnique(a[1..], b[1..]);
    }
  }

  lemma NewestFirstDistinct(cs: seq<Commit>)
    requires DistinctRevs(cs)
    ensures DistinctRevs(NewestFirst(cs))
  {
    NewestFirstDescending(cs);
    DescendingDistinct(NewestFirst(cs));
  }

  lemma RevsOfSorted(cs: seq<Commit>)
    ensures Revs(NewestFirst(cs)) == Revs(cs)
  {
    hide NewestFirst;
    var s := NewestFirst(cs);
    assert forall i :: 0 <= i < |s| ==> s[i] in multiset(s) && s[i] in multiset(cs);
    assert forall i :: 0 <= i < |cs| ==> cs[i] in multiset(cs) && cs[i] in multiset(s);
  }

  lemma RevsConcat(a: seq<Commit>, b: seq<Commit>)
    ensures Revs(a + b) == Revs(a) + Revs(b)
  {
    assert forall i :: 0 <= i < |a| ==> (a + b)[i] == a[i];
    assert forall i :: 0 <= i < |b| ==> (a + b)[|a| + i] == b[i];
  }

  /** Sorting in two goes. */
  lemma SortInSteps(a: seq<Commit>, b: seq<Commit>)
    requires DistinctRevs(a + b)
    ensures NewestFirst(NewestFirst(a) + b) == NewestFirst(a + b)
  {
    hide NewestFirst;
    assert DistinctRevs(a) by { assert forall i :: 0 <= i < |a| ==> (a + b)[i] == a[i]; }
    RevsOfSorted(a);
    NewestFirstDistinct(a);
    var s := NewestFirst(a);
    forall i, j | 0 <= i < j < |s + b| ensures (s + b)[i].rev != (s + b)[j].rev {
      if i < |s| <= j {
        assert s[i].rev in Revs(a);
        var k :| 0 <= k < |a| && a[k].rev == s[i].rev;
        assert (a + b)[k] == a[k] && (a + b)[|a| + j - |s|] == b[j - |s|];
      } else if |s| <= i {
        assert (a + b)[|a| + i - |s|] == b[i - |s|] && (a + b)[|a| + j - |s|] == b[j - |s|];
      }
    }
    NewestFirstDescending(s + b);
    NewestFirstDescending(a + b);
    DescendingUnique(NewestFirst(s + b), NewestFirst(a + b));
  }

  // ---- the log

  lemma {:induction false} SvnLogConcat(a: seq<Entry>, b: seq<Entry>, start: int)
    ensures SvnLog(a + b, start) == SvnLog(a, start) + SvnLog(b, start)
  {
    if a == [] {
      assert a + b == b;
    } else {
      assert (a + b)[1..] == a[1..] + b;
      SvnLogConcat(a[1..], b, start);
      var x := if a[0].rev >= start then [a[0]] else [];
      assert x + (SvnLog(a[1..], start) + SvnLog(b, start)) == (x + SvnLog(a[1..], start)) + SvnLog(b, start);
    }
  }

  lemma {:induction false} SvnLogMembers(log: seq<Entry>, start: int)
    ensures forall e :: e in SvnLog(log, start) <==> e in log && e.rev >= start
  {
    if log != [] {
      SvnLogMembers(log[1..], start);
      assert forall e :: e in log <==> e == log[0] || e in log[1..];
    }
  }

  lemma {:induction false} SvnLogAll(log: seq<Entry>, start: int)
    requires forall i :: 0 <= i < |log| ==> log[i].rev >= start
    ensures SvnLog(log, start) == log
  {
    if log != [] {
      SvnLogAll(log[1..], start);
    }
  }

  lemma {:induction false} SvnLogRising(log: seq<Entry>, start: int)
    requires Rising(log)
    ensures Rising(SvnLog(log, start))
  {
    if log != [] {
      SvnLogRising(log[1..], start);
      SvnLogMembers(log[1..], start);
      var rest := SvnLog(log[1..], start);
      forall i | 0 <= i < |rest| ensures rest[i].rev > log[0].rev {
        assert rest[i] in rest;
      }
    }
  }

  lemma {:induction false} MaxRevBounds(entries: seq<Entry>)
    requires entries != []
    ensures forall i :: 0 <= i < |entries| ==> entries[i].rev <= MaxRev(entries)
    ensures exists i :: 0 <= i < |entries| && entries[i].rev == MaxRev(entries)
  {
    if |entries| > 1 {
      MaxRevBounds(entries[1..]);
      var i :| 0 <= i < |entries| - 1 && entries[1..][i].rev == MaxRev(entries[1..]);
      assert entries[i + 1].rev == MaxRev(entries[1..]);
      forall j | 0 <= j < |entries| ensures entries[j].rev <= MaxRev(entries) {
        if j > 0 {
          assert entries[j] == entries[1..][j - 1];
        }
      }
    } else {
      assert entries[0].rev == MaxRev(entries);
    }
  }

  lemma {:induction false} AddedConcat(a: seq<Entry>, b: seq<Entry>, known: set<nat>, limit: int)
    ensures Added(a + b, known, limit) == Added(a, known, limit) + Added(b, known, limit)
  {
    hide Imported;
    if a == [] {
      assert a + b == b;
    } else {
      assert (a + b)[1..] == a[1..] + b;
      AddedConcat(a[1..], b, known, limit);
      var x := if a[0].rev in known then [] else [Imported(a[0], limit)];
      var y, z := Added(a[1..], known, limit), Added(b, known, limit);
      assert x + (y + z) == (x + y) + z;
    }
  }

  /** Exactly the unknown entries become records, each with its own revision. */
  lemma {:induction false} AddedMembers(entries: seq<Entry>, known: set<nat>, limit: int)
    ensures forall c :: (c in Added(entries, known, limit)
                    <==> exists e :: e in entries && e.rev !in known && c == Imported(e, limit))
  {
    hide Imported;
    if entries != [] {
      AddedMembers(entries[1..], known, limit);
      var e0, rest := entries[0], entries[1..];
      forall c ensures c in Added(entries, known, limit)
                  <==> exists e :: e in entries && e.rev !in known && c == Imported(e, limit)
      {
        if c in Added(entries, known, limit) {
          if c in Added(rest, known, limit) {
            var e :| e in rest && e.rev !in known && c == Imported(e, limit);
            assert e in entries;
          } else {
            assert e0 in entries && e0.rev !in known && c == Imported(e0, limit);
          }
        }
        if e :| e in entries && e.rev !in known && c == Imported(e, limit) {
          if e != e0 {
            assert e in rest;
          }
        }
      }
    }
  }

  lemma ImportedRev(e: Entry, limit: int)
    ensures Imported(e, limit).rev == e.rev
  {}

  lemma AddedRevs(entries: seq<Entry>, known: set<nat>, limit: int)
    ensures forall rev :: (rev in Revs(Added(entries, known, limit))
                      <==> rev !in known && exists e :: e in entries && e.rev == rev)
  {
    hide Imported, Added;
    var added := Added(entries, known, limit);
    AddedMembers(entries, known, limit);
    forall rev ensures rev in Revs(added) <==> rev !in known && exists e :: e in entries && e.rev == rev {
      if rev in Revs(added) {
        var i :| 0 <= i < |added| && added[i].rev == rev;
        assert added[i] in added;
        var e :| e in entries && e.rev !in known && added[i] == Imported(e, limit);
        ImportedRev(e, limit);
      }
      if rev !in known {
        if e :| e in entries && e.rev == rev {
          assert Imported(e, limit) in added;
          ImportedRev(e, limit);
        }
      }
    }
  }

  lemma {:induction false} AddedDistinct(entries: seq<Entry>, known: set<nat>, limit: int)
    requires Rising(entries)
    ensures DistinctRevs(Added(entries, known, limit))
  {
    hide Imported;
    if entries != [] {
      var rest := entries[1..];
      AddedDistinct(rest, known, limit);
      AddedRevs(rest, known, limit);
      ImportedRev(entries[0], limit);
      var r := Added(rest, known, limit);
      forall i | 0 <= i < |r| ensures r[i].rev != entries[0].rev {
        assert r[i].rev in Revs(r);
        var e :| e in rest && e.rev == r[i].rev;
      }
    }
  }

  lemma {:induction false} AddedKnown(entries: seq<Entry>, known: set<nat>, limit: int)
    requires forall e :: e in entries ==> e.rev in known
    ensures Added(entries, known, limit) == []
  {
    if entries != [] {
      AddedKnown(entries[1..], known, limit);
    }
  }

  lemma {:induction false} AddedSame(entries: seq<Entry>, known: set<nat>, known': set<nat>, limit: int)
    requires forall e :: e in entries ==> (e.rev in known <==> e.rev in known')
    ensures Added(entries, known, limit) == Added(entries, known', limit)
  {
    hide Imported;
    if entries != [] {
      AddedSame(entries[1..], known, known', limit);
    }
  }

  lemma JoinedDistinct(d: Data, log: seq<Entry>, start: int, limit: int)
    requires DistinctRevs(d.commits) && Rising(log)
    ensures DistinctRevs(d.commits + Added(SvnLog(log, start), Revs(d.commits), limit))
  {
    hide Added, SvnLog;
    var known := Revs(d.commits);
    SvnLogRising(log, start);
    AddedDistinct(SvnLog(log, start), known, limit);
    AddedRevs(SvnLog(log, start), known, limit);
  }

  /** The watermark a run from watermark `last` leaves behind. */
  function NextWatermark(log: seq<Entry>, last: int): int {
    var entries := SvnLog(log, last + 1);
    if entries == [] then last else MaxRev(entries)
  }

  lemma NextWatermarkBounds(log: seq<Entry>, last: int)
    ensures NextWatermark(log, last) >= last
    ensures forall e :: e in log && e.rev > last ==> e.rev <= NextWatermark(log, last)
    ensures NextWatermark(log, last) > last ==> exists e :: e in log && e.rev == NextWatermark(log, last)
  {
    hide SvnLog, MaxRev;
    var entries := SvnLog(log, last + 1);
    SvnLogMembers(log, last + 1);
    if entries != [] {
      MaxRevBounds(entries);
      var i :| 0 <= i < |entries| && entries[i].rev == MaxRev(entries);
      assert entries[i] in entries;
    }
    forall e | e in log && e.rev > last ensures e.rev <= NextWatermark(log, last) {
      assert e in entries;
    }
  }

  /** A second run over a longer log, from any watermark the first can have left, adds what one run would still add. */
  lemma SecondRunAdds(l1: seq<Entry>, more: seq<Entry>, last: int, last': int, known: set<nat>, limit: int)
    requires Rising(l1 + more) && last <= last' <= NextWatermark(l1, last)
    ensures var added := Added(SvnLog(l1, last + 1), known, limit);
            added + Added(SvnLog(l1 + more, last' + 1), known + Revs(added), limit)
            == Added(SvnLog(l1 + more, last + 1), known, limit)
  {
    hide Added, SvnLog, NextWatermark, Revs;
    var e1, e2 := SvnLog(l1, last + 1), SvnLog(more, last + 1);
    var added := Added(e1, known, limit);
    var known' := known + Revs(added);
    SvnLogConcat(l1, more, last + 1);
    SvnLogConcat(l1, more, last' + 1);
    AddedConcat(e1, e2, known, limit);
    var old' := SvnLog(l1, last' + 1);
    AddedConcat(old', SvnLog(more, last' + 1), known', limit);
    SvnLogMembers(l1, last + 1);
    SvnLogMembers(l1, last' + 1);
    AddedRevs(e1, known, limit);
    forall e | e in old' ensures e.rev in known' {
      assert e in e1;
    }
    AddedKnown(old', known', limit);
    assert SvnLog(more, last' + 1) == e2 by {
      NextWatermarkBounds(l1, last);
      if NextWatermark(l1, last) > last {
        var e :| e in l1 && e.rev == NextWatermark(l1, last);
        var i :| 0 <= i < |l1| && l1[i] == e;
        forall j | 0 <= j < |more| ensures more[j].rev > e.rev {
          assert (l1 + more)[i] == e && (l1 + more)[|l1| + j] == more[j];
        }
        SvnLogAll(more, last + 1);
        SvnLogAll(more, last' + 1);
      }
    }
    forall e | e in e2 ensures e.rev in known <==> e.rev in known' {
      SvnLogMembers(more, last + 1);
      var j :| 0 <= j < |more| && more[j] == e;
      forall e' | e' in e1 ensures e'.rev < e.rev {
        var i :| 0 <= i < |l1| && l1[i] == e';
        assert (l1 + more)[i].rev < (l1 + more)[|l1| + j].rev;
      }
    }
    AddedSame(e2, known, known', limit);
    assert [] + Added(e2, known', limit) == Added(e2, known', limit);
  }

  // ---- what one run does

  /** What a run records in the header. */
  lemma NewHeaderKeeps(header: map<string, HeaderValue>, entries: seq<Entry>, url: string, now: string)
    ensures var h := NewHeader(header, entries, url, now);
            && IntHeader(h, "path_limit", 10) == IntHeader(header, "path_limit", 10)
            && (entries == [] ==> IntHeader(h, "last_imported", 0) == IntHeader(header, "last_imported", 0))
            && (entries != [] ==> IntHeader(h, "last_imported", 0) == Some(MaxRev(entries)))
  {
    hide MaxRev, IntOf;
    assert "path_limit"[0] != "repo"[0] && "path_limit"[0] != "last_imported"[0] && "path_limit"[0] != "imported_at"[0];
    assert "last_imported"[0] != "repo"[0] && "last_imported"[0] != "imported_at"[0];
  }

  lemma WatermarkMoves(d: Data, log: seq<Entry>, url: string, now: string)
    requires Watermark(d).Some? && Limit(d).Some?
    ensures var u := Updated(d, log, url, now);
            Watermark(u) == Some(NextWatermark(log, Watermark(d).value)) && Limit(u) == Limit(d)
  {
    hide SvnLog, Added, NewestFirst, IntHeader, MaxRev, NewHeader;
    NewHeaderKeeps(d.header, SvnLog(log, Watermark(d).value + 1), url, now);
  }

  /**
    * Old records stay; every entry past the watermark has one record; nothing else is added; the watermark only rises.
    */
  lemma UpdateExact(d: Data, log: seq<Entry>, url: string, now: string)
    requires Watermark(d).Some? && Limit(d).Some?
    requires DistinctRevs(d.commits) && Rising(log)
    ensures var u := Updated(d, log, url, now);
            && Descending(u.commits)
            && (forall e :: e in log && e.rev > Watermark(d).value ==> e.rev in Revs(u.commits))
            && (forall c :: c in u.commits <==> c in d.commits || IsAddition(d, log, c))
            && Watermark(u) == Some(NextWatermark(log, Watermark(d).value))
            && Watermark(u).value >= Watermark(d).value
  {
    hide SvnLog, Added, NewestFirst, Imported, Watermark, Limit, NewHeader, NextWatermark, Revs;
    var last, limit, known := Watermark(d).value, Limit(d).value, Revs(d.commits);
    var entries := SvnLog(log, last + 1);
    var added := Added(entries, known, limit);
    var all := d.commits + added;
    var u := Updated(d, log, url, now);
    JoinedDistinct(d, log, last + 1, limit);
    NewestFirstDescending(all);
    SvnLogMembers(log, last + 1);
    AddedMembers(entries, known, limit);
    AddedRevs(entries, known, limit);
    RevsConcat(d.commits, added);
    RevsOfSorted(all);
    NextWatermarkBounds(log, last);
    WatermarkMoves(d, log, url, now);
    forall c ensures c in u.commits <==> c in all {
      assert c in u.commits <==> c in multiset(u.commits);
      assert c in all <==> c in multiset(all);
    }
  }

  /** `c` is the record of a log entry past the watermark whose revision was not stored. */
  predicate IsAddition(d: Data, log: seq<Entry>, c: Commit)
    requires Watermark(d).Some? && Limit(d).Some?
  {
    exists e :: e in log && e.rev > Watermark(d).value && e.rev !in Revs(d.commits) && c == Imported(e, Limit(d).value)
  }

  // ---- several runs in memory

  lemma InThree(a: seq<Commit>, b: seq<Commit>, c: seq<Commit>)
    ensures a + (b + c) == (a + b) + c
  {}

  /** The records after two runs are those after one. */
  lemma TwoRunsRecords(d: Data, l1: seq<Entry>, l2: seq<Entry>, url: string, t1: string, t2: string)
    requires Watermark(d).Some? && Limit(d).Some?
    requires DistinctRevs(d.commits) && Rising(l2) && l1 <= l2
    ensures var d1 := Updated(d, l1, url, t1);
            Watermark(d1).Some? && Limit(d1) == Limit(d)
            && Updated(d1, l2, url, t2).commits == Updated(d, l2, url, t2).commits
  {
    hide SvnLog, Added, NewestFirst, Watermark, Limit, NewHeader, NextWatermark, Revs, DistinctRevs, Rising;
    var last, limit, known := Watermark(d).value, Limit(d).value, Revs(d.commits);
    var more := l2[|l1|..];
    assert l2 == l1 + more;
    var d1 := Updated(d, l1, url, t1);
    WatermarkMoves(d, l1, url, t1);
    NextWatermarkBounds(l1, last);
    var last1 := Watermark(d1).value;
    var a1 := Added(SvnLog(l1, last + 1), known, limit);
    var a2 := Added(SvnLog(l2, last1 + 1), Revs(d1.commits), limit);
    var a := Added(SvnLog(l2, last + 1), known, limit);
    assert d1.commits == NewestFirst(d.commits + a1);
    assert Updated(d1, l2, url, t2).commits == NewestFirst(d1.commits + a2);
    assert Updated(d, l2, url, t2).commits == NewestFirst(d.commits + a);
    hide Updated;
    RevsOfSorted(d.commits + a1);
    RevsConcat(d.commits, a1);
    SecondRunAdds(l1, more, last, last1, known, limit);
    JoinedDistinct(d, l2, last + 1, limit);
    assert a == a1 + a2;
    InThree(d.commits, a1, a2);
    SortInSteps(d.commits + a1, a2);
  }

  /** Running after a run equals running once: the whole dictionary, not only the records. */
  lemma TwoRuns(d: Data, l1: seq<Entry>, l2: seq<Entry>, url: string, t1: string, t2: string)
    requires Watermark(d).Some? && Limit(d).Some?
    requires DistinctRevs(d.commits) && Rising(l2) && l1 <= l2
    ensures var d1 := Updated(d, l1, url, t1);
            Watermark(d1).Some? && Limit(d1) == Limit(d) && DistinctRevs(d1.commits)
            && Updated(d1, l2, url, t2) == Updated(d, l2, url, t2)
  {
    hide SvnLog, Added, NewestFirst, Watermark, Limit, NewHeader, NextWatermark, Revs;
    TwoRunsRecords(d, l1, l2, url, t1, t2);
    HeadersAgree(d, l1, l2, url, t1, t2);
    assert Rising(l1) by { assert forall i :: 0 <= i < |l1| ==> l2[i] == l1[i]; }
    UpdateExact(d, l1, url, t1);
    DescendingDistinct(Updated(d, l1, url, t1).commits);
  }

  /** The watermark after two runs is the watermark after one. */
  lemma SecondWatermark(l1: seq<Entry>, more: seq<Entry>, last: int)
    requires Rising(l1 + more)
    ensures NextWatermark(l1 + more, NextWatermark(l1, last)) == NextWatermark(l1 + more, last)
  {
    hide NextWatermark;
    var all, w1 := l1 + more, NextWatermark(l1, last);
    NextWatermarkBounds(l1, last);
    NextWatermarkBounds(all, last);
    NextWatermarkBounds(all, w1);
    var w, w2 := NextWatermark(all, last), NextWatermark(all, w1);
    if w > last {
      var e :| e in all && e.rev == w;
      assert w <= w2;
    }
    if w2 > w1 {
      var e :| e in all && e.rev == w2;
      assert w2 <= w;
    } else if w1 > last {
      var e :| e in l1 && e.rev == w1;
      assert e in all;
    }
  }

  /** The last run decides the header; the watermark is that of its entries or the one before. */
  lemma NewHeaderTwice(h: map<string, HeaderValue>, e1: seq<Entry>, e2: seq<Entry>, e: seq<Entry>, url: string,
      t1: string, t2: string)
    requires e2 != [] ==> e != [] && MaxRev(e) == MaxRev(e2)
    requires e2 == [] && e1 != [] ==> e != [] && MaxRev(e) == MaxRev(e1)
    requires e2 == [] && e1 == [] ==> e == []
    ensures NewHeader(NewHeader(h, e1, url, t1), e2, url, t2) == NewHeader(h, e, url, t2)
  {
    hide MaxRev;
    assert "last_imported"[0] != "repo"[0] && "last_imported"[0] != "imported_at"[0];
    assert "repo"[0] != "imported_at"[0];
  }

  lemma HeadersAgree(d: Data, l1: seq<Entry>, l2: seq<Entry>, url: string, t1: string, t2: string)
    requires Watermark(d).Some? && Limit(d).Some? && l1 <= l2 && Rising(l2)
    ensures var d1 := Updated(d, l1, url, t1);
            Watermark(d1).Some? && Limit(d1) == Limit(d)
            && Updated(d1, l2, url, t2).header == Updated(d, l2, url, t2).header
  {
    hide Added, NewestFirst, MaxRev, SvnLog, Watermark, Limit, NewHeader;
    var last := Watermark(d).value;
    var more := l2[|l1|..];
    assert l2 == l1 + more;
    WatermarkMoves(d, l1, url, t1);
    var last1 := NextWatermark(l1, last);
    var e1, e2, e := SvnLog(l1, last + 1), SvnLog(l2, last1 + 1), SvnLog(l2, last + 1);
    SvnLogConcat(l1, more, last + 1);
    SecondWatermark(l1, more, last);
    if e2 != [] {
      SvnLogMembers(l2, last1 + 1);
      SvnLogMembers(l2, last + 1);
      NextWatermarkBounds(l1, last);
      assert e2[0] in e2 && e2[0] in e;
    }
    NewHeaderTwice(d.header, e1, e2, e, url, t1, t2);
  }

  /** A run: the log as it stood, and the time. */
  datatype Run = Run(log: seq<Entry>, now: string)

  /** Each run sees the log of the run before, possibly grown. */
  predicate Growing(runs: seq<Run>) {
    && (forall i :: 0 <= i < |runs| ==> Rising(runs[i].log))
    && forall i, j :: 0 <= i < j < |runs| ==> runs[i].log <= runs[j].log
  }

  function AllRuns(d: Data, runs: seq<Run>, url: string): Option<Data>
    decreases |runs|
  {
    if runs == [] then Some(d)
    else if Watermark(d).None? || Limit(d).None? || !LogAnswers(d) then None
    else AllRuns(Updated(d, runs[0].log, url, runs[0].now), runs[1..], url)
  }

  /** Any number of runs leaves the dictionary one run against the last log would leave. */
  lemma {:induction false} ManyRunsAreOne(d: Data, runs: seq<Run>, url: string)
    requires runs != [] && Growing(runs)
    requires Watermark(d).Some? && Limit(d).Some? && LogAnswers(d) && DistinctRevs(d.commits)
    ensures var last := runs[|runs| - 1];
            AllRuns(d, runs, url) == Some(Updated(d, last.log, url, last.now))
    decreases |runs|
  {
    hide Updated, Watermark, Limit, Rising;
    var d1 := Updated(d, runs[0].log, url, runs[0].now);
    if |runs| == 1 {
      assert runs[1..] == [];
      assert AllRuns(d1, [], url) == Some(d1);
    } else {
      var last := runs[|runs| - 1];
      assert runs[1..][|runs| - 2] == last;
      TwoRuns(d, runs[0].log, last.log, url, runs[0].now, last.now);
      UpdateExact(d, runs[0].log, url, runs[0].now);
      ManyRunsAreOne(d1, runs[1..], url);
    }
  }

  // ---- the header of a run

  const RUN_KEYS := {"repo", "last_imported", "imported_at"}

  /**
    * A run's header is the old one in every key but three: the repository asked, the time of the run, and the greatest
    * revision listed, if any was.
    */
  lemma HeaderOfRun(d: Data, log: seq<Entry>, url: string, now: string)
    requires Watermark(d).Some? && Limit(d).Some?
    ensures var h, w := Updated(d, log, url, now).header, NextWatermark(log, Watermark(d).value);
            && h.Keys == d.header.Keys + {"repo", "imported_at"}
                + (if w > Watermark(d).value then {"last_imported"} else {})
            && (forall key :: key in d.header && key !in RUN_KEYS ==> h[key] == d.header[key])
            && h["repo"] == Word(url) && h["imported_at"] == Word(now)
            && (w > Watermark(d).value ==> h["last_imported"] == Number(w))
            && (w == Watermark(d).value && "last_imported" in d.header ==>
                  h["last_imported"] == d.header["last_imported"])
    ensures Updated(d, log, url, now).preamble == d.preamble
  {
    hide Watermark, Limit, SvnLog, MaxRev, Added, NewestFirst, Revs;
    assert "last_imported"[0] != "repo"[0] && "last_imported"[0] != "imported_at"[0];
    assert "repo"[0] != "imported_at"[0];
    var last := Watermark(d).value;
    var entries := SvnLog(log, last + 1);
    if entries != [] {
      SvnLogMembers(log, last + 1);
      MaxRevBounds(entries);
      var i :| 0 <= i < |entries| && entries[i].rev == MaxRev(entries);
      assert entries[i] in entries;
    }
  }

  /** Without a path limit the preamble asks for ten paths, without a watermark the import starts at revision 1. */
  lemma Defaults(d: Data)
    ensures "path_limit" !in d.header ==> Limit(d) == Some(10)
    ensures "last_imported" !in d.header ==> Watermark(d) == Some(0)
    ensures forall n: int :: "path_limit" in d.header && d.header["path_limit"] == Number(n) ==> Limit(d) == Some(n)
  {}

  /** A negative limit leaves out as many paths from the end, as slicing does. */
  lemma NegativeLimit(e: Entry, limit: int)
    requires limit < 0
    ensures var files := Imported(e, limit).files;
            files <= e.files && |files| == if |e.files| + limit > 0 then |e.files| + limit else 0
  {
    hide IssueKeys;
  }
}
