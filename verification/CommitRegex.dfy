/** Each recogniser against the regular expression or string operation it stands for, on every text. */
module CommitRegex {
  import opened Wrappers
  import opened Text
  import opened CommitData
  import opened CommitParser
  import opened CommitPrinter
  import opened CommitLines
  import opened CommitRoundTrip
  import opened CommitDocument
  import opened CommitImport

  // ---- strip

  lemma {:induction false} LStripCut(s: string)
    ensures var k := |s| - |LStrip(s)|; LStrip(s) == s[k..] && Blank(s[..k])
  {
    if s != "" && IsSpace(s[0]) {
      LStripCut(s[1..]);
      var k := |s[1..]| - |LStrip(s[1..])|;
      assert s[1..][k..] == s[k + 1..];
      assert s[..k + 1] == [s[0]] + s[1..][..k];
    } else {
      assert s[0..] == s;
    }
  }

  lemma {:induction false} RStripCut(s: string)
    ensures s == RStrip(s) + s[|RStrip(s)|..] && Blank(s[|RStrip(s)|..])
  {
    hide Blank;
    if s != "" && IsSpace(s[|s| - 1]) {
      var front, last := s[..|s| - 1], [s[|s| - 1]];
      RStripCut(front);
      var r, k := RStrip(front), |RStrip(front)|;
      assert s == front + last;
      assert (r + front[k..]) + last == r + (front[k..] + last);
      assert s[k..] == front[k..] + last;
      BlankThen(front[k..], s[|s| - 1]);
    } else {
      assert s[|s|..] == "" && s + "" == s;
      BlankEmpty();
    }
  }

  lemma BlankEmpty()
    ensures Blank("")
  {}

  lemma BlankThen(s: string, c: char)
    requires Blank(s) && IsSpace(c)
    ensures Blank(s + [c])
  {}

  lemma {:induction false} RStripTail(s: string, tail: string)
    requires Blank(tail)
    ensures RStrip(s + tail) == RStrip(s)
    decreases |tail|
  {
    if tail == "" {
      assert s + tail == s;
    } else {
      var n := |tail| - 1;
      assert (s + tail)[..|s + tail| - 1] == s + tail[..n];
      RStripTail(s, tail[..n]);
    }
  }

  /** `strip` takes white space off both ends and nothing else. */
  lemma StripIff(s: string, t: string)
    ensures Strip(s) == t <==> Stripped(t) && exists a, b :: Blank(a) && Blank(b) && s == a + t + b
  {
    hide LStrip, RStrip, Stripped;
    StripCut(s);
    forall a, b | Stripped(t) && Blank(a) && Blank(b) && s == a + t + b ensures Strip(s) == t {
      StripBetween(a, t, b);
    }
  }

  lemma StripCut(s: string)
    ensures exists a, b :: Blank(a) && Blank(b) && s == a + Strip(s) + b
  {
    hide LStrip, RStrip, Blank;
    LStripCut(s);
    var l := LStrip(s);
    RStripCut(l);
    var k := |s| - |l|;
    assert s == s[..k] + s[k..];
    var a, b := s[..k], l[|RStrip(l)|..];
    assert s == a + (Strip(s) + b) == a + Strip(s) + b;
  }

  lemma StripBetween(a: string, t: string, b: string)
    requires Stripped(t) && Blank(a) && Blank(b)
    ensures Strip(a + t + b) == t
  {
    hide Blank;
    assert a + t + b == a + (t + b);
    StripPadded(a, t + b);
    if t == "" {
      assert t + b == b;
      StripBlank(b);
    } else {
      assert (t + b)[0] == t[0];
      LStripFixed(t + b);
      RStripTail(t, b);
      StripFixed(t);
    }
  }

  predicate Breaks(s: string) { forall i :: 0 <= i < |s| ==> s[i] == '\n' }

  lemma {:induction false} TrimLeftCut(s: string)
    ensures exists a :: Breaks(a) && s == a + TrimLeft(s)
  {
    if s != "" && s[0] == '\n' {
      TrimLeftCut(s[1..]);
      var a :| Breaks(a) && s[1..] == a + TrimLeft(s[1..]);
      assert Breaks(['\n'] + a) && s == (['\n'] + a) + TrimLeft(s);
    } else {
      assert Breaks("") && s == "" + TrimLeft(s);
    }
  }

  lemma {:induction false} TrimRightCut(s: string)
    ensures exists b :: Breaks(b) && s == TrimRight(s) + b
  {
    if s != "" && s[|s| - 1] == '\n' {
      var front := s[..|s| - 1];
      TrimRightCut(front);
      var b :| Breaks(b) && front == TrimRight(front) + b;
      assert Breaks(b + ['\n']) && s == TrimRight(s) + (b + ['\n']);
    } else {
      assert Breaks("") && s == TrimRight(s) + "";
    }
  }

  /** A message loses its outer line breaks and nothing else. */
  lemma TrimExact(s: string)
    ensures exists a, b :: Breaks(a) && Breaks(b) && s == a + TrimNewlines(s) + b
  {
    hide TrimLeft, TrimRight, Breaks;
    TrimLeftCut(s);
    TrimRightCut(TrimLeft(s));
    var a :| Breaks(a) && s == a + TrimLeft(s);
    var b :| Breaks(b) && TrimLeft(s) == TrimRight(TrimLeft(s)) + b;
    assert s == a + (TrimNewlines(s) + b) == a + TrimNewlines(s) + b;
  }

  /** Where nothing comes first, the first character is that of what follows. */
  lemma FirstOf(a: string, t: string, s: string)
    requires s == a + t && t != ""
    ensures a == "" ==> s[0] == t[0]
  {}

  // ---- ^##\s+r(\d+)\s*$

  predicate HeadParts(line: string, gap: string, num: string, tail: string) {
    line == "##" + gap + "r" + num + tail && gap != "" && Blank(gap) && AllDigits(num) && Blank(tail)
  }

  lemma HeadIff(line: string, n: nat)
    ensures RevHead(line) == Some(n)
       <==> exists gap, num, tail :: HeadParts(line, gap, num, tail) && ReadNat(num) == n
  {
    hide Strip, ReadNat, Blank;
    if RevHead(line) == Some(n) {
      HeadSound(line);
    }
    forall gap, num, tail | HeadParts(line, gap, num, tail) && ReadNat(num) == n ensures RevHead(line) == Some(n) {
      HeadComplete(line, gap, num, tail);
    }
  }

  lemma HeadSound(line: string)
    requires RevHead(line).Some?
    ensures exists gap, num, tail :: HeadParts(line, gap, num, tail) && RevHead(line) == Some(ReadNat(num))
  {
    hide Strip, ReadNat;
    var rest := line[2..];
    StripCut(rest);
    var t := Strip(rest);
    var a, b :| Blank(a) && Blank(b) && rest == a + t + b;
    assert rest == a + (t + b) && (t + b)[0] == t[0] == 'r';
    FirstOf(a, t + b, rest);
    assert t == "r" + t[1..];
    assert line == "##" + rest;
    assert line == "##" + a + "r" + t[1..] + b;
    assert HeadParts(line, a, t[1..], b);
  }

  lemma HeadComplete(line: string, gap: string, num: string, tail: string)
    requires HeadParts(line, gap, num, tail)
    ensures RevHead(line) == Some(ReadNat(num))
  {
    hide Strip, ReadNat;
    var t := "r" + num;
    assert line[2..] == gap + t + tail;
    assert IsSpace(gap[0]) && line[2] == gap[0] && line[..2] == "##";
    assert t[|t| - 1] == num[|num| - 1];
    StripBetween(gap, t, tail);
    assert t[1..] == num;
  }

  // ---- ^-\s+([A-Za-z][A-Za-z0-9_-]*):\s?(.*)$

  predicate FieldParts(line: string, gap: string, key: string, rest: string) {
    line == "-" + gap + key + ":" + rest && gap != "" && Blank(gap) && IsKey(key)
  }

  lemma FieldIff(line: string, f: Field)
    ensures FieldOf(line) == Some(f) <==>
              exists gap, rest :: FieldParts(line, gap, f.key, rest) && f.value == Strip(rest)
  {
    hide Strip, Blank, IsKey;
    if FieldOf(line) == Some(f) {
      FieldSound(line);
    }
    forall gap, rest | FieldParts(line, gap, f.key, rest) && f.value == Strip(rest) ensures FieldOf(line) == Some(f) {
      FieldComplete(line, gap, f.key, rest);
    }
  }

  /** The recogniser's own cuts. */
  lemma FieldCuts(line: string) returns (gap: string, t: string, key: string, rest: string)
    requires FieldOf(line).Some?
    ensures |line| > 1 && line[0] == '-' && IsSpace(line[1]) && line[1..] == gap + t && Blank(gap)
              && t == key + ":" + rest
    ensures IsKey(key) && FieldOf(line).value == Field(key, Strip(rest))
  {
    hide Strip, LStrip, IsKey;
    LStripCut(line[1..]);
    t := LStrip(line[1..]);
    var k, colon := |line[1..]| - |t|, Find(t, ':');
    gap, key, rest := line[1..][..k], t[..colon], t[colon + 1..];
  }

  lemma FieldSound(line: string)
    requires FieldOf(line).Some?
    ensures var f := FieldOf(line).value;
            exists gap, rest :: FieldParts(line, gap, f.key, rest) && f.value == Strip(rest)
  {
    hide Strip, LStrip, IsKey, Blank, FieldOf;
    var gap, t, key, rest := FieldCuts(line);
    KeyStart(key);
    assert t[0] == key[0];
    FirstOf(gap, t, line[1..]);
    FieldGlue(line, gap, key, rest, t);
    assert FieldParts(line, gap, key, rest);
  }

  lemma KeyStart(key: string)
    requires IsKey(key)
    ensures key != "" && !IsSpace(key[0])
  {}

  lemma FieldGlue(line: string, gap: string, key: string, rest: string, t: string)
    requires line != "" && line[0] == '-' && line[1..] == gap + t && t == key + ":" + rest
    ensures line == "-" + gap + key + ":" + rest
  {
    assert line == "-" + line[1..];
  }

  lemma FieldComplete(line: string, gap: string, key: string, rest: string)
    requires FieldParts(line, gap, key, rest)
    ensures FieldOf(line) == Some(Field(key, Strip(rest)))
  {
    hide Strip, LStrip;
    var t := key + [':'] + rest;
    assert line[1..] == gap + t && line[0] == '-';
    assert IsSpace(gap[0]) && line[1] == gap[0];
    StripPadded(gap, t);
    assert t[0] == key[0];
    LStripFixed(t);
    FindAfter(key, ':', rest);
    assert t[..|key|] == key && t[|key| + 1..] == rest;
  }

  // ---- ^(~{3,})\s*([A-Za-z0-9_-]*)\s*$

  predicate FenceParts(line: string, n: nat, gap: string, tag: string, tail: string) {
    line == Fenceline(n) + gap + tag + tail && n >= 3 && Blank(gap) && TagChars(tag) && Blank(tail)
  }

  lemma FenceIff(line: string, f: Fence)
    ensures FenceOf(line) == Some(f) <==> exists gap, tail :: FenceParts(line, f.length, gap, f.tag, tail)
  {
    hide Strip, Blank, TagChars, FenceOf;
    if FenceOf(line) == Some(f) {
      FenceSound(line, f);
    }
    forall gap, tail | FenceParts(line, f.length, gap, f.tag, tail) ensures FenceOf(line) == Some(f) {
      FenceComplete(line, f.length, gap, f.tag, tail);
    }
  }

  lemma FenceSound(line: string, f: Fence)
    requires FenceOf(line) == Some(f)
    ensures exists gap, tail :: FenceParts(line, f.length, gap, f.tag, tail)
  {
    hide Strip, Blank, TagChars;
    var n := f.length;
    StripCut(line[n..]);
    var a, b :| Blank(a) && Blank(b) && line[n..] == a + f.tag + b;
    FrontTildes(line);
    FenceGlue(line, n, a + f.tag + b);
    Regroup(line[..n], a, f.tag, b);
    assert FenceParts(line, n, a, f.tag, b);
  }

  lemma FrontTildes(line: string)
    ensures line[..Tildes(line)] == Fenceline(Tildes(line))
  {}

  lemma Regroup(w: string, a: string, b: string, c: string)
    ensures w + (a + b + c) == w + a + b + c
  {}

  lemma FenceGlue(line: string, n: nat, rest: string)
    requires n <= |line| && line[n..] == rest
    ensures line == line[..n] + rest
  {}

  lemma FenceComplete(line: string, n: nat, gap: string, tag: string, tail: string)
    requires FenceParts(line, n, gap, tag, tail)
    ensures FenceOf(line) == Some(Fence(n, tag))
  {
    hide Strip;
    var rest := gap + tag + tail;
    assert line == Fenceline(n) + rest;
    assert rest != "" ==> rest[0] != '~';
    TildesOf(n, rest);
    assert line[n..] == rest;
    assert Stripped(tag);
    StripBetween(gap, tag, tail);
  }

  /** A closing fence: at least `n` tildes, then nothing but white space. */
  lemma ClosesIff(line: string, n: nat)
    ensures Closes(line, n)
       <==> exists m: nat, tail :: m > 0 && m >= n && Blank(tail) && line == Fenceline(m) + tail
  {
    hide RStrip;
    if Closes(line, n) {
      RStripCut(line);
      var t := RStrip(line);
      assert t == Fenceline(|t|);
      assert |t| > 0 && |t| >= n && Blank(line[|t|..]) && line == Fenceline(|t|) + line[|t|..];
    }
    forall m: nat, tail | m > 0 && m >= n && Blank(tail) && line == Fenceline(m) + tail ensures Closes(line, n) {
      RStripTail(Fenceline(m), tail);
      assert Fenceline(m) + "" == Fenceline(m);
      TildesOf(m, "");
      assert !IsSpace(Fenceline(m)[m - 1]);
      RStripSolid(Fenceline(m));
    }
  }

  lemma RStripSolid(s: string)
    requires s != "" && !IsSpace(s[|s| - 1])
    ensures RStrip(s) == s
  {}

  // ---- ^([AMDR])\s+(.+?)\s*$

  /** When only white space follows the action, the path is the last of it. */
  predicate PathParts(line: string, gap: string, f: FileEntry, tail: string) {
    && line == f.action + gap + f.path + tail && IsAction(f.action) && gap != "" && Blank(gap) && Blank(tail)
    && f.path != "" && (Stripped(f.path) || (|f.path| == 1 && tail == ""))
  }

  lemma PathIff(line: string, f: FileEntry)
    ensures PathOf(line) == Some(f) <==> exists gap, tail :: PathParts(line, gap, f, tail)
  {
    hide Strip, Blank;
    if PathOf(line) == Some(f) {
      PathSound(line);
    }
    forall gap, tail | PathParts(line, gap, f, tail) ensures PathOf(line) == Some(f) {
      PathComplete(line, gap, f, tail);
    }
  }

  lemma PathSound(line: string)
    requires PathOf(line).Some?
    ensures exists gap, tail :: PathParts(line, gap, PathOf(line).value, tail)
  {
    hide Strip;
    StripBlank(line[1..]);
    if Strip(line[1..]) != "" {
      PathStripped(line);
    } else {
      PathBlank(line);
    }
  }

  lemma PathStripped(line: string)
    requires PathOf(line).Some? && Strip(line[1..]) != ""
    ensures exists gap, tail :: PathParts(line, gap, PathOf(line).value, tail)
  {
    hide Strip, Blank;
    var f, rest := PathOf(line).value, line[1..];
    FenceGlue(line, 1, rest);
    StripCut(rest);
    var a, b :| Blank(a) && Blank(b) && rest == a + f.path + b;
    assert (f.path + b)[0] == f.path[0] && a + f.path + b == a + (f.path + b);
    FirstOf(a, f.path + b, rest);
    Regroup(f.action, a, f.path, b);
    assert PathParts(line, a, f, b);
  }

  lemma PathBlank(line: string)
    requires PathOf(line).Some? && Strip(line[1..]) == "" && Blank(line[1..])
    ensures exists gap, tail :: PathParts(line, gap, PathOf(line).value, tail)
  {
    hide Strip;
    var f, rest := PathOf(line).value, line[1..];
    var n := |rest| - 1;
    var gap := rest[..n];
    assert f.path == [rest[n]] && f.action == line[..1];
    assert gap != "" && Blank(gap);
    assert line == f.action + gap + f.path + "";
    assert PathParts(line, gap, f, "");
  }

  lemma PathComplete(line: string, gap: string, f: FileEntry, tail: string)
    requires PathParts(line, gap, f, tail)
    ensures PathOf(line) == Some(f)
  {
    hide Strip;
    var rest := gap + f.path + tail;
    assert line == f.action + rest && line[0] == f.action[0] && line[..1] == f.action && line[1..] == rest;
    assert line[1] == gap[0] && IsSpace(gap[0]);
    if Stripped(f.path) {
      StripBetween(gap, f.path, tail);
    } else {
      assert Blank(rest);
      StripBlank(rest);
      assert rest == gap + f.path;
      assert line[|line| - 1..] == f.path;
    }
  }

  // ---- ^\.\.\.\s+(\d+)\s+more paths not listed\s*$

  const MORE := "more paths not listed"

  predicate CountParts(line: string, gap: string, num: string, gap2: string, tail: string) {
    && line == "..." + gap + num + gap2 + MORE + tail
    && gap != "" && Blank(gap) && AllDigits(num) && gap2 != "" && Blank(gap2) && Blank(tail)
  }

  lemma CountIff(line: string, n: nat)
    ensures TruncOf(line) == Some(n)
       <==> exists gap, num, gap2, tail :: CountParts(line, gap, num, gap2, tail) && ReadNat(num) == n
  {
    hide CountBefore, ReadNat, Blank;
    if TruncOf(line) == Some(n) {
      CountSound(line);
    }
    forall gap, num, gap2, tail | CountParts(line, gap, num, gap2, tail) && ReadNat(num) == n
      ensures TruncOf(line) == Some(n)
    {
      CountComplete(line, gap, num, gap2, tail);
    }
  }

  lemma CountSound(line: string)
    requires TruncOf(line).Some?
    ensures exists gap, num, gap2, tail ::
              CountParts(line, gap, num, gap2, tail) && TruncOf(line) == Some(ReadNat(num))
  {
    hide Strip, LStrip, ReadNat;
    var rest := line[3..];
    var t := Strip(rest);
    StripCut(rest);
    var a, b :| Blank(a) && Blank(b) && rest == a + t + b;
    var n := Digits(t);
    assert (t + b)[0] == t[0] && rest == a + (t + b);
    FirstOf(a, t + b, rest);
    LStripCut(t[n..]);
    var k := |t[n..]| - |MORE|;
    var num, gap2 := t[..n], t[n..][..k];
    assert t == num + t[n..] && t[n..] == gap2 + MORE;
    FirstOf(gap2, MORE, t[n..]);
    assert MORE[0] == 'm';
    assert line == "..." + rest;
    assert line == "..." + a + num + gap2 + MORE + b by { CountGlue(a, num, gap2, b, t, rest, line); }
    assert CountParts(line, a, num, gap2, b);
  }

  lemma CountGlue(a: string, num: string, gap2: string, b: string, t: string, rest: string, line: string)
    requires line == "..." + rest && rest == a + t + b && t == num + (gap2 + MORE)
    ensures line == "..." + a + num + gap2 + MORE + b
  {
    assert "..." + (a + (num + (gap2 + MORE)) + b) == "..." + a + num + gap2 + MORE + b;
  }

  lemma CountComplete(line: string, gap: string, num: string, gap2: string, tail: string)
    requires CountParts(line, gap, num, gap2, tail)
    ensures TruncOf(line) == Some(ReadNat(num))
  {
    hide Strip, LStrip, ReadNat;
    var t := num + gap2 + MORE;
    assert line[3..] == gap + t + tail && line[..3] == "...";
    assert line[3] == gap[0] && IsSpace(gap[0]);
    CountInside(num, gap2);
    assert t[0] == num[0];
    StripBetween(gap, t, tail);
  }

  lemma CountInside(num: string, gap2: string)
    requires AllDigits(num) && gap2 != "" && Blank(gap2)
    ensures var t := num + gap2 + MORE;
            && Digits(t) == |num| && t[..|num|] == num && IsSpace(t[|num|]) && LStrip(t[|num|..]) == MORE
            && !IsSpace(t[|t| - 1])
  {
    hide LStrip;
    var t := num + gap2 + MORE;
    assert t[|t| - 1] == MORE[|MORE| - 1] == 'd';
    assert t[|num|] == gap2[0] && IsSpace(gap2[0]);
    assert forall i :: 0 <= i < |num| ==> t[i] == num[i];
    assert t[|num|..] == gap2 + MORE;
    StripPadded(gap2, MORE);
    assert MORE[0] == 'm';
    LStripFixed(MORE);
  }

  // ---- \b([A-Z][A-Z0-9]+-\d+)\b

  predicate KeyParts(key: string, name: string, num: string) {
    && key == name + "-" + num && AllDigits(num)
    && |name| >= 2 && IsUpper(name[0]) && forall i :: 1 <= i < |name| ==> IsUpper(name[i]) || IsDigit(name[i])
  }

  ghost predicate IssueKey(key: string) { exists name, num :: KeyParts(key, name, num) }

  /** The key stands in the message with no letter, digit or underscore touching it. */
  predicate StandsAlone(msg: string, pre: string, key: string, post: string) {
    && msg == pre + key + post
    && (pre == "" || !IsWordChar(pre[|pre| - 1])) && (post == "" || !IsWordChar(post[0]))
  }

  lemma MentionsIff(msg: string, key: string)
    ensures Mentions(msg, key) <==> IssueKey(key) && exists pre, post :: StandsAlone(msg, pre, key, post)
  {
    hide KeyEnd, IssueKey, StandsAlone;
    if Mentions(msg, key) {
      var p :| 0 <= p < |msg| && KeyEnd(msg, p).Some? && msg[p..KeyEnd(msg, p).value] == key;
      KeySound(msg, p);
    }
    if IssueKey(key) {
      forall pre, post | StandsAlone(msg, pre, key, post) ensures Mentions(msg, key) {
        KeyComplete(msg, pre, key, post);
      }
    }
  }

  lemma KeySound(msg: string, p: nat)
    requires p < |msg| && KeyEnd(msg, p).Some?
    ensures var end := KeyEnd(msg, p).value;
            IssueKey(msg[p..end]) && StandsAlone(msg, msg[..p], msg[p..end], msg[end..])
  {
    hide CapsEnd, DigitsEnd;
    var dash, end := CapsEnd(msg, p + 1), KeyEnd(msg, p).value;
    var name, num := msg[p..dash], msg[dash + 1..end];
    assert msg[p..end] == name + "-" + num;
    assert forall i :: 0 <= i < |name| ==> name[i] == msg[p + i];
    assert forall i :: 0 <= i < |num| ==> num[i] == msg[dash + 1 + i];
    assert KeyParts(msg[p..end], name, num);
    assert msg == msg[..p] + msg[p..end] + msg[end..];
  }

  lemma {:induction false} CapsRun(s: string, p: nat, end: nat)
    requires p <= end <= |s| && forall i :: p <= i < end ==> IsUpper(s[i]) || IsDigit(s[i])
    requires end < |s| ==> !IsUpper(s[end]) && !IsDigit(s[end])
    ensures CapsEnd(s, p) == end
    decreases end - p
  {
    if p < end {
      CapsRun(s, p + 1, end);
    }
  }

  lemma {:induction false} DigitsRun(s: string, p: nat, end: nat)
    requires p <= end <= |s| && forall i :: p <= i < end ==> IsDigit(s[i])
    requires end < |s| ==> !IsDigit(s[end])
    ensures DigitsEnd(s, p) == end
    decreases end - p
  {
    if p < end {
      DigitsRun(s, p + 1, end);
    }
  }

  /** The characters of a key, one by one. */
  lemma KeyChars(key: string, name: string, num: string)
    requires KeyParts(key, name, num)
    ensures |key| == |name| + 1 + |num| && IsUpper(key[0]) && key[|name|] == '-'
    ensures forall i :: 1 <= i < |name| ==> IsUpper(key[i]) || IsDigit(key[i])
    ensures forall i :: |name| < i < |key| ==> IsDigit(key[i])
  {
    assert forall i :: 0 <= i < |name| ==> key[i] == name[i];
    assert forall i :: |name| < i < |key| ==> key[i] == num[i - |name| - 1];
  }

  lemma KeyComplete(msg: string, pre: string, key: string, post: string)
    requires IssueKey(key) && StandsAlone(msg, pre, key, post)
    ensures Mentions(msg, key)
  {
    hide CapsEnd, DigitsEnd, Mentions, KeyParts;
    var name, num :| KeyParts(key, name, num);
    KeyChars(key, name, num);
    assert |name| >= 2 && |num| > 0 by { KeySizes(key, name, num); }
    var p := |pre|;
    var dash, end := p + |name|, p + |key|;
    assert forall i :: p <= i < end ==> msg[i] == key[i - p];
    if end < |msg| { assert msg[end] == post[0]; }
    CapsRun(msg, p + 1, dash);
    DigitsRun(msg, dash + 1, end);
    if p > 0 { assert msg[p - 1] == pre[p - 1]; }
    assert KeyEnd(msg, p) == Some(end);
    assert msg[p..end] == key;
    MentionsAt(msg, p, key);
  }

  lemma KeySizes(key: string, name: string, num: string)
    requires KeyParts(key, name, num)
    ensures |name| >= 2 && |num| > 0
  {}

  lemma MentionsAt(msg: string, p: nat, key: string)
    requires p < |msg| && KeyEnd(msg, p).Some? && msg[p..KeyEnd(msg, p).value] == key
    ensures Mentions(msg, key)
  {}

  // ---- reference lists

  /** The references of a value that is a list. */
  function Listed(value: string): seq<string> { NonBlankParts(Split(value, ',')) }

  lemma {:induction false} PartsConcat(a: seq<string>, b: seq<string>)
    ensures NonBlankParts(a + b) == NonBlankParts(a) + NonBlankParts(b)
  {
    hide Strip;
    if a == [] {
      assert a + b == b;
    } else {
      assert (a + b)[1..] == a[1..] + b;
      PartsConcat(a[1..], b);
    }
  }

  /** A list is its pieces between commas, stripped, the blank ones left out. */
  lemma ListedPieces(a: string, b: string, piece: string)
    ensures Listed(a + "," + b) == Listed(a) + Listed(b)
    ensures ',' !in piece ==> Listed(piece) == if Blank(piece) then [] else [Strip(piece)]
  {
    hide Strip, Split, Blank;
    SplitAt(a, ',', b);
    assert a + [','] + b == a + "," + b;
    PartsConcat(Split(a, ','), Split(b, ','));
    if ',' !in piece {
      SplitUnbroken(piece, ',');
      StripBlank(piece);
      OnePart(piece);
    }
  }

  lemma OnePart(piece: string)
    ensures NonBlankParts([piece]) == if Strip(piece) != "" then [Strip(piece)] else []
  {
    hide Strip;
    assert [piece][1..] == [];
  }

  /** What a stripped reference field means. */
  lemma RefsMean(v: string)
    requires Stripped(v)
    ensures v == "" || v == "?" ==> ParseRefs(v) == None
    ensures Lower(v) == "none" ==> ParseRefs(v) == Some([])
    ensures v != "" && v != "?" && Lower(v) != "none" ==> ParseRefs(v) == Some(Listed(v))
  {
    hide Split;
    StripFixed(v);
    assert Lower("?") != "none" by { assert |Lower("?")| == 1; }
    assert |Lower("")| == 0;
  }

  // ---- int()

  lemma PlainDigits(s: string)
    requires AllDigits(s)
    ensures IntBody(s) && DropUnderscores(s) == s
  {
    hide DropUnderscores;
    assert '_' !in s by { assert forall c :: c in s ==> IsDigit(c); }
  }

  /** Signs, blanks around the number and single underscores inside it are read; the digits make the number. */
  lemma IntMeans(a: string, sign: string, s: string, b: string)
    requires Blank(a) && Blank(b) && AllDigits(s) && sign in {"", "+", "-"}
    ensures var n: int := ReadNat(s); IntOf(a + (sign + s) + b) == Some(if sign == "-" then -n else n)
  {
    hide Strip, ReadNat, IntBody, DropUnderscores, Blank;
    var t := sign + s;
    PlainDigits(s);
    assert t[|t| - 1] == s[|s| - 1] && (sign == "" ==> t == s) && (sign != "" ==> t[1..] == s && t[0] == sign[0]);
    StripBetween(a, t, b);
    assert IsDigit(s[0]) && s[0] !in "+-";
  }

  lemma {:induction false} DropConcat(a: string, b: string)
    ensures DropUnderscores(a + b) == DropUnderscores(a) + DropUnderscores(b)
  {
    hide DropUnderscores;
    if a == "" {
      DropNothing();
      assert a + b == b && "" + DropUnderscores(b) == DropUnderscores(b);
    } else {
      assert (a + b)[1..] == a[1..] + b && (a + b)[0] == a[0];
      DropConcat(a[1..], b);
      DropStep(a);
      DropStep(a + b);
      var x, y, z := if a[0] == '_' then "" else [a[0]], DropUnderscores(a[1..]), DropUnderscores(b);
      assert x + (y + z) == (x + y) + z;
    }
  }

  lemma DropNothing()
    ensures DropUnderscores("") == ""
  {}

  lemma DropStep(s: string)
    requires s != ""
    ensures DropUnderscores(s) == (if s[0] == '_' then "" else [s[0]]) + DropUnderscores(s[1..])
  {}

  lemma BarredDigits(a: string, b: string)
    requires AllDigits(a) && AllDigits(b)
    ensures var t := a + "_" + b;
            IntBody(t) && DropUnderscores(t) == a + b && Stripped(t) && IsDigit(t[0])
  {
    hide DropUnderscores;
    var t := a + "_" + b;
    assert t[|t| - 1] == b[|b| - 1] && t[0] == a[0] && t[|a|] == '_';
    assert forall i :: |a| < i < |t| ==> t[i] == b[i - |a| - 1];
    assert forall i :: 0 <= i < |a| ==> t[i] == a[i];
    assert '_' !in a && '_' !in b by { assert forall c :: c in a || c in b ==> IsDigit(c); }
    DropConcat(a + "_", b);
    DropConcat(a, "_");
    DropBar();
    assert a + "" == a;
  }

  lemma IntUnderscore(a: string, b: string)
    requires AllDigits(a) && AllDigits(b)
    ensures AllDigits(a + b) && IntOf(a + "_" + b) == IntOf(a + b) == Some(ReadNat(a + b) as int)
  {
    hide Strip, ReadNat, DropUnderscores, IntBody, Stripped;
    BarredDigits(a, b);
    StripFixed(a + "_" + b);
    IntMeans("", "", a + b, "");
    assert "" + ("" + (a + b)) + "" == a + b;
  }

  lemma DropBar()
    ensures DropUnderscores("_") == ""
  {
    assert "_"[1..] == "";
  }

  /** Anything else in the number is an error. */
  lemma IntRefused(s: string, c: char)
    requires c in s && !IsSpace(c) && !IsDigit(c) && c !in "+-_"
    ensures IntOf(s).None?
  {
    hide LStrip, RStrip, ReadNat, DropUnderscores;
    StripCut(s);
    var a, b :| Blank(a) && Blank(b) && s == a + Strip(s) + b;
    var t := Strip(s);
    assert c !in a && c !in b;
    InMiddle(a, t, b, c);
    var k :| 0 <= k < |t| && t[k] == c;
    if t[0] in "+-" {
      assert k > 0 && t[1..][k - 1] == c;
    }
  }

  lemma InMiddle(a: string, t: string, b: string, c: char)
    requires c in a + t + b && c !in a && c !in b
    ensures c in t
  {}
}
