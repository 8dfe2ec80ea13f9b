/** Whatever the parser accepts, the printer can print. */
module CommitClean {
  import opened Wrappers
  import opened Text
  import opened CommitData
  import opened CommitParser
  import opened CommitLines
  import opened CommitRoundTrip
  import opened CommitDocument

  predicate AllPlain(lines: seq<string>) { forall i :: 0 <= i < |lines| ==> Plain(lines[i]) }

  lemma StripPlain(s: string)
    requires Plain(s)
    ensures GoodWord(Strip(s))
  {
    forall c | c in Strip(s) ensures c in s {
      StripChars(s, c);
    }
  }

  lemma {:induction false} PartsGood(parts: seq<string>)
    requires forall i :: 0 <= i < |parts| ==> Plain(parts[i]) && ',' !in parts[i]
    ensures forall i :: 0 <= i < |NonBlankParts(parts)| ==> GoodRef(NonBlankParts(parts)[i])
  {
    hide Strip;
    if parts != [] {
      var s := Strip(parts[0]);
      StripPlain(parts[0]);
      if ',' in s {
        StripChars(parts[0], ',');
      }
      PartsGood(parts[1..]);
    }
  }

  lemma ParsedRefsGood(value: string)
    requires Plain(value)
    ensures GoodRefs(ParseRefs(value))
  {
    hide Strip, NonBlankParts;
    var v := Strip(value);
    StripPlain(value);
    SplitFree(v, ',', '\n');
    SplitFree(v, ',', '\r');
    PartsGood(Split(v, ','));
  }

  lemma PathGood(line: string)
    requires Plain(line) && PathOf(line).Some?
    ensures GoodFile(PathOf(line).value)
  {
    hide Strip;
    var rest := line[1..];
    assert Plain(rest) by { assert forall c :: c in rest ==> c in line; }
    StripPlain(rest);
    StripBlank(rest);
    if Strip(rest) == "" {
      assert IsSpace(rest[|rest| - 1]) && line[|line| - 1] == rest[|rest| - 1];
      assert line[|line| - 1] in line;
    }
  }

  lemma {:induction false} ListingGood(lines: seq<string>, acc: Listing)
    requires AllPlain(lines) && GoodFiles(acc.files)
    ensures GoodFiles(ListingOf(lines, acc).files)
  {
    hide PathOf, TruncOf, GoodFile, Plain;
    if lines != [] {
      if PathOf(lines[0]).Some? {
        PathGood(lines[0]);
      }
      ListingGood(lines[1..], WithFileLine(acc, lines[0]));
    }
  }

  lemma LinesPlain(text: string)
    requires '\r' !in text
    ensures AllPlain(Split(text, '\n'))
  {
    SplitFree(text, '\n', '\r');
  }

  lemma FenceGood(c: Commit, tag: string, body: string)
    requires GoodCommit(c) && '\r' !in body
    ensures GoodCommit(WithFence(c, tag, body))
  {
    hide GoodRefs, GoodFile, GoodWord, ListingOf, Split, TrimNewlines, GoodMsg;
    GoodBody(body);
    LinesPlain(body);
    ListingGood(Split(body, '\n'), Listing([], 0));
  }

  lemma GoodBody(body: string)
    requires '\r' !in body
    ensures GoodMsg(TrimNewlines(body))
  {
    TrimFree(body);
  }

  lemma TrimFree(body: string)
    requires '\r' !in body
    ensures '\r' !in TrimNewlines(body)
  {
    assert forall c :: c in TrimNewlines(body) ==> c in TrimLeft(body);
  }

  lemma FieldGood(c: Commit, key: string, value: string)
    requires GoodCommit(c) && GoodWord(value)
    ensures GoodCommit(WithField(c, key, value))
  {
    hide GoodRefs, GoodFile, GoodWord, GoodMsg, ParseRefs, AllDigits;
    assert GoodRefs(ParseRefs(value)) by { WordPlain(value); ParsedRefsGood(value); }
  }

  lemma WordPlain(value: string)
    requires GoodWord(value)
    ensures Plain(value)
  {}

  lemma OtherGood(c: Commit, pending: string, line: string)
    requires GoodCommit(c) && Plain(line)
    ensures GoodCommit(WithOther(c, pending, line))
  {
    hide GoodRefs, GoodFile, GoodMsg, Strip;
    StripPlain(line);
    StripPlain(c.note + " " + Strip(line));
  }

  lemma {:induction false} RecordGood(lines: seq<string>, i: nat, c: Commit, pending: string)
    requires i <= |lines| && AllPlain(lines) && GoodCommit(c)
    ensures var r := Record(lines, i, c, pending);
            r.Ok? ==> GoodCommit(r.value.commit) && r.value.commit.rev == c.rev
    decreases |lines| - i
  {
    hide RevHead, FenceOf, FieldOf, WithFence, WithField, WithOther, FenceEnd, Underscored, GoodCommit, Join, Plain;
    if i < |lines| && RevHead(lines[i]).None? {
      var fence, field := FenceOf(lines[i]), FieldOf(lines[i]);
      if fence.Some? {
        var end := FenceEnd(lines, i + 1, fence.value.length);
        if end < |lines| {
          var body := Join(lines[i + 1..end], "\n");
          assert '\r' !in body by { JoinedFree(lines, i + 1, end); }
          FenceGood(c, fence.value.tag, body);
          RecordGood(lines, end + 1, WithFence(c, fence.value.tag, body), "");
        }
      } else if field.Some? {
        var key := Underscored(field.value.key);
        FieldShape(lines[i]);
        assert GoodWord(field.value.value);
        FieldGood(c, key, field.value.value);
        RecordGood(lines, i + 1, WithField(c, key, field.value.value), key);
      } else {
        OtherGood(c, pending, lines[i]);
        RecordGood(lines, i + 1, WithOther(c, pending, lines[i]), pending);
      }
    }
  }

  lemma JoinedFree(lines: seq<string>, a: nat, b: nat)
    requires a <= b <= |lines| && AllPlain(lines)
    ensures '\r' !in Join(lines[a..b], "\n")
  {
    JoinFree(lines[a..b], "\n", '\r');
  }

  lemma BlankGood(rev: nat)
    ensures GoodCommit(BlankCommit(rev))
  {}

  lemma {:induction false} RecordsGood(lines: seq<string>, i: nat, seen: set<nat>)
    requires i <= |lines| && AllPlain(lines)
    ensures var r := Records(lines, i, seen);
            r.Ok? ==>
              && AllGood(r.value) && DistinctRevs(r.value)
              && forall k :: 0 <= k < |r.value| ==> r.value[k].rev !in seen
    decreases |lines| - i
  {
    hide RevHead, Record, GoodCommit, Plain;
    if i < |lines| {
      var head := RevHead(lines[i]);
      if head.None? {
        RecordsGood(lines, i + 1, seen);
      } else if head.value !in seen {
        var p := Record(lines, i + 1, BlankCommit(head.value), "");
        BlankGood(head.value);
        RecordGood(lines, i + 1, BlankCommit(head.value), "");
        if p.Ok? {
          RecordsGood(lines, p.value.next, seen + {head.value});
        }
      }
    }
  }

  lemma {:induction false} HeaderGood(lines: seq<string>, acc: map<string, HeaderValue>)
    requires AllPlain(lines) && GoodHeader(acc)
    ensures var r := HeaderOf(lines, acc);
            r.Ok? ==> GoodHeader(r.value) && r.value.Keys == acc.Keys + FieldKeys(lines)
  {
    hide FieldOf, Underscored, Plain, IntOf;
    if lines != [] {
      if FieldOf(lines[0]).Some? {
        FieldShape(lines[0]);
      }
      var h := WithHeaderLine(acc, lines[0]);
      if h.Ok? {
        HeaderGood(lines[1..], h.value);
      }
    }
  }

  lemma {:induction false} NoHeadBefore(lines: seq<string>, i: nat)
    requires i <= |lines|
    ensures forall k :: i <= k < FirstHead(lines, i) ==> RevHead(lines[k]).None?
    decreases |lines| - i
  {
    hide RevHead;
    if i < |lines| && RevHead(lines[i]).None? {
      NoHeadBefore(lines, i + 1);
    }
  }

  lemma SortedDistinct(cs: seq<Commit>)
    requires AllGood(cs) && DistinctRevs(cs)
    ensures AllGood(NewestFirst(cs)) && Descending(NewestFirst(cs)) && DistinctRevs(NewestFirst(cs))
  {
    hide GoodCommit, NewestFirst;
    SortedGood(cs);
    NewestFirstDescending(cs);
    DescendingDistinct(NewestFirst(cs));
  }

  /** The parser yields printable data, newest first, with exactly the header keys the preamble shows. */
  lemma ParsedPrintable(text: string)
    requires '\r' !in ReplaceCrLf(text) && Parse(text).Ok?
    ensures var d := Parse(text).value;
            Printable(d) && Descending(d.commits) && d.header.Keys == FieldKeys(d.preamble)
  {
    hide RevHead, Split, ReplaceCrLf, GoodCommit, GoodHeader, HeaderOf, Records, NewestFirst, FieldKeys, FirstHead;
    var lines := Split(ReplaceCrLf(text), '\n');
    LinesPlain(ReplaceCrLf(text));
    var n := FirstHead(lines, 0);
    NoHeadBefore(lines, 0);
    EmptyHeaderGood();
    HeaderGood(lines[..n], map[]);
    RecordsGood(lines, n, {});
    SortedDistinct(Records(lines, n, {}).value);
  }

  lemma EmptyHeaderGood()
    ensures GoodHeader(map[])
  {}
}
