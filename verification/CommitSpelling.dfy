/** The one way each part of commits.md is spelled when the script writes it, told from the lines alone. */
module CommitSpelling {
  import opened Wrappers
  import opened Text
  import opened CommitData
  import opened CommitPrinter
  import opened CommitLines
  import opened CommitDocument

  // ---- words

  /** Decimal without leading zeros. */
  predicate DecimalSpelled(s: string) { AllDigits(s) && (|s| == 1 || s[0] != '0') }

  predicate IntSpelled(s: string) {
    if s != "" && s[0] == '-' then DecimalSpelled(s[1..]) && s[1..] != "0" else DecimalSpelled(s)
  }

  /** `?`, `none`, or references with a comma and one blank between each two; never `none` in other letters. */
  predicate RefsSpelled(v: string) {
    v == "?" || v == "none" || (Lower(v) != "none" && PartsSpelled(Split(v, ',')))
  }

  predicate PartsSpelled(parts: seq<string>) {
    forall i :: 0 <= i < |parts| ==> if i == 0 then WordSpelled(parts[0]) else PartSpelled(parts[i])
  }

  predicate WordSpelled(s: string) { s != "" && Stripped(s) }

  predicate PartSpelled(s: string) { s != "" && s[0] == ' ' && WordSpelled(s[1..]) }

  // ---- lines

  predicate HeadSpelled(line: string) { |line| > 4 && line[..4] == "## r" && DecimalSpelled(line[4..]) }

  function HeadRev(line: string): nat
    requires HeadSpelled(line)
  {
    ReadNat(line[4..])
  }

  /** The value of a line spelled `- key: value`, or `- key:` when the value is empty. */
  function ValueIn(line: string, key: string): Option<string> {
    var n := |key| + 4;
    if line == "- " + key + ":" then Some("")
    else if |line| > n && line[..n] == "- " + key + ": " && Stripped(line[n..]) then Some(line[n..])
    else None
  }

  predicate FileSpelled(line: string) {
    && |line| > 2 && line[0] in "AMDR" && line[1] == ' '
    && (Stripped(line[2..]) || |line| == 3)
  }

  const PATHS_LEFT := " more paths not listed"

  predicate CountSpelled(line: string) {
    var n := |line| - |PATHS_LEFT|;
    n > 4 && line[..4] == "... " && DecimalSpelled(line[4..n]) && line[4..n] != "0" && line[n..] == PATHS_LEFT
  }

  // ---- decimal numbers

  lemma {:induction false} DecimalShown(n: nat)
    ensures DecimalSpelled(ShowNat(n)) && (n > 0 ==> ShowNat(n)[0] != '0') && (n == 0 ==> ShowNat(n) == "0")
  {
    if n >= 10 {
      DecimalShown(n / 10);
    }
  }

  lemma {:induction false} DecimalRead(s: string)
    requires DecimalSpelled(s)
    ensures ShowNat(ReadNat(s)) == s
    ensures s != "0" ==> ReadNat(s) > 0
  {
    var front, last := s[..|s| - 1], s[|s| - 1];
    assert DigitChar(DigitValue(last)) == last;
    if |s| == 1 {
      assert ReadNat(front) == 0;
      assert s == [last];
    } else {
      DecimalRead(front);
      DecimalShown(0);
      assert ReadNat(front) > 0;
      assert ReadNat(s) / 10 == ReadNat(front) && ReadNat(s) % 10 == DigitValue(last);
      assert s == front + [last];
    }
  }

  lemma IntShown(n: int)
    ensures IntSpelled(ShowInt(n))
  {
    hide ShowNat;
    DecimalShown(if n < 0 then -n else n);
    DecimalShown(0);
    if n < 0 {
      var digits := ShowNat(-n);
      assert ShowInt(n)[1..] == digits;
      assert digits[0] != '0';
    } else {
      assert IsDigit(ShowInt(n)[0]);
    }
  }

  lemma IntRead(s: string)
    requires IntSpelled(s)
    ensures exists n: int :: IntOf(s) == Some(n) && ShowInt(n) == s
  {
    hide ShowNat, ReadNat, IntOf;
    if s[0] == '-' {
      DecimalRead(s[1..]);
      var m: int := ReadNat(s[1..]);
      var n := -m;
      assert ShowInt(n) == "-" + s[1..] == s;
      IntRecognised(n);
    } else {
      DecimalRead(s);
      var n := ReadNat(s);
      assert ShowInt(n) == s;
      IntRecognised(n);
    }
  }

  // ---- fields

  lemma ValueInExact(line: string, key: string, value: string)
    requires Stripped(value)
    ensures ValueIn(line, key) == Some(value) <==> line == FieldLine(key, value)
  {
    var n := |key| + 4;
    var colon := "- " + key + ": ";
    if line == FieldLine(key, value) && value != "" {
      assert line == colon + value && line[..n] == colon && line[n..] == value;
      assert |line| != |"- " + key + ":"|;
    }
    if ValueIn(line, key) == Some(value) && value != "" {
      assert line == line[..n] + line[n..];
    }
  }

  lemma ValueInShape(line: string, key: string)
    requires ValueIn(line, key).Some?
    ensures Stripped(ValueIn(line, key).value)
    ensures line == FieldLine(key, ValueIn(line, key).value)
    ensures Plain(line) ==> Plain(ValueIn(line, key).value)
  {
    var v := ValueIn(line, key).value;
    ValueInExact(line, key, v);
    assert forall c :: c in v ==> c in line;
  }

  // ---- references

  lemma RefsShown(refs: Refs)
    requires GoodRefs(refs)
    requires refs.Some? && |refs.value| == 1 && Lower(refs.value[0]) == "none" ==> refs.value[0] == "none"
    ensures RefsSpelled(FormatRefs(refs))
  {
    hide Stripped, Split, Lower;
    if refs.Some? && refs.value != [] {
      var keys := refs.value;
      var v := FormatRefs(refs);
      SplitRefs(keys);
      SpacedSpelled(keys[1..]);
      if |keys| > 1 {
        JoinEnds(keys);
        CommaNotNone(v);
      } else {
        assert v == keys[0];
      }
    }
  }

  lemma {:induction false} SpacedSpelled(keys: seq<string>)
    requires forall i :: 0 <= i < |keys| ==> GoodRef(keys[i])
    ensures |Spaced(keys)| == |keys|
    ensures forall i :: 0 <= i < |keys| ==> PartSpelled(Spaced(keys)[i])
  {
    hide Stripped;
    if keys != [] {
      SpacedSpelled(keys[1..]);
      assert (" " + keys[0])[1..] == keys[0];
    }
  }

  /** The references behind a spelled list. */
  function RefsIn(v: string): Refs {
    if v == "?" then None else if v == "none" then Some([]) else Some(KeysIn(Split(v, ',')))
  }

  function KeysIn(parts: seq<string>): (keys: seq<string>)
    requires |parts| > 0
    ensures |keys| == |parts| && keys[0] == parts[0]
    ensures forall i :: 1 <= i < |parts| && parts[i] != "" ==> keys[i] == parts[i][1..]
  {
    [parts[0]]
    + seq(|parts| - 1, i requires 0 <= i < |parts| - 1 => if parts[i + 1] == "" then "" else parts[i + 1][1..])
  }

  lemma {:induction false} SpacedKeys(keys: seq<string>, parts: seq<string>)
    requires |keys| == |parts|
    requires forall i :: 0 <= i < |parts| ==> parts[i] == " " + keys[i]
    ensures Spaced(keys) == parts
  {
    if keys != [] {
      SpacedKeys(keys[1..], parts[1..]);
    }
  }

  lemma RefsRead(v: string)
    requires RefsSpelled(v) && Plain(v)
    ensures GoodRefs(RefsIn(v)) && FormatRefs(RefsIn(v)) == v
    ensures var refs := RefsIn(v);
            refs.Some? && |refs.value| == 1 && Lower(refs.value[0]) == "none" ==> refs.value[0] == "none"
  {
    if v != "?" && v != "none" {
      hide Stripped, Split, Lower, KeysIn, GoodRef, Spaced, PartsSpelled;
      var parts := Split(v, ',');
      var keys := KeysIn(parts);
      KeysGood(v);
      KeysSpaced(parts);
      SplitRefs(keys);
      assert [parts[0]] + parts[1..] == parts;
      JoinSplit(v, ',');
      JoinSplit(Join(keys, ", "), ',');
      if |keys| == 1 {
        assert Join(keys, ", ") == keys[0];
      }
    }
  }

  lemma KeysSpaced(parts: seq<string>)
    requires parts != [] && PartsSpelled(parts)
    ensures Spaced(KeysIn(parts)[1..]) == parts[1..]
  {
    hide Stripped, KeysIn, Spaced;
    var keys := KeysIn(parts);
    forall i | 0 <= i < |parts| - 1 ensures parts[1..][i] == " " + keys[1..][i] {
      assert PartSpelled(parts[i + 1]);
    }
    SpacedKeys(keys[1..], parts[1..]);
  }

  lemma KeysGood(v: string)
    requires Plain(v) && PartsSpelled(Split(v, ','))
    ensures forall i :: 0 <= i < |KeysIn(Split(v, ','))| ==> GoodRef(KeysIn(Split(v, ','))[i])
  {
    hide Stripped, Split;
    var parts := Split(v, ',');
    SplitFree(v, ',', '\n');
    SplitFree(v, ',', '\r');
    forall i | 0 <= i < |parts| ensures GoodRef(KeysIn(parts)[i]) {
      if i > 0 {
        assert PartSpelled(parts[i]);
        assert forall c :: c in parts[i][1..] ==> c in parts[i];
      }
    }
  }

  // ---- the other lines

  lemma HeadShown(rev: nat)
    ensures var line := "## r" + ShowNat(rev); HeadSpelled(line) && HeadRev(line) == rev
  {
    hide ShowNat, ReadNat;
    DecimalShown(rev);
    assert ("## r" + ShowNat(rev))[4..] == ShowNat(rev);
  }

  lemma HeadRead(line: string)
    requires HeadSpelled(line)
    ensures line == "## r" + ShowNat(HeadRev(line)) && RevHead(line) == Some(HeadRev(line))
  {
    hide ShowNat, ReadNat;
    DecimalRead(line[4..]);
    assert line == line[..4] + line[4..];
    HeadRecognised(HeadRev(line));
  }

  function FileIn(line: string): FileEntry
    requires FileSpelled(line)
  {
    FileEntry(line[..1], line[2..])
  }

  lemma StartsWithDot(line: string)
    ensures CountSpelled(line) ==> line[0] == '.'
  {
    if CountSpelled(line) {
      assert line[0] == line[..4][0];
    }
  }

  lemma FileExact(f: FileEntry)
    requires GoodFile(f)
    ensures var line := f.action + " " + f.path; FileSpelled(line) && FileIn(line) == f && !CountSpelled(line)
  {
    hide Stripped;
    var line := f.action + " " + f.path;
    assert line[0] == f.action[0] && line[1] == ' ' && line[2..] == f.path && line[..1] == f.action;
    StartsWithDot(line);
  }

  lemma FileRead(line: string)
    requires FileSpelled(line) && Plain(line)
    ensures var f := FileIn(line); GoodFile(f) && line == f.action + " " + f.path
  {
    var f := FileIn(line);
    assert f.path == line[2..] && |f.path| > 0 && f.path[0] == line[2];
    assert line == [line[0]] + [line[1]] + line[2..];
    assert forall c :: c in f.path ==> c in line;
    if |line| == 3 {
      assert f.path == [line[2]];
    }
  }

  function CountIn(line: string): nat
    requires CountSpelled(line)
  {
    ReadNat(line[4..|line| - |PATHS_LEFT|])
  }

  lemma CountExact(n: nat)
    requires n > 0
    ensures CountSpelled(TruncLine(n)) && CountIn(TruncLine(n)) == n && !FileSpelled(TruncLine(n))
  {
    hide ShowNat, ReadNat;
    var line := TruncLine(n);
    DecimalShown(n);
    var m := |line| - |PATHS_LEFT|;
    assert line == "... " + ShowNat(n) + PATHS_LEFT;
    assert line[4..m] == ShowNat(n) && line[m..] == PATHS_LEFT && line[..4] == "... ";
    assert line[0] == '.';
  }

  lemma CountRead(line: string)
    requires CountSpelled(line)
    ensures CountIn(line) > 0 && line == TruncLine(CountIn(line))
  {
    hide ShowNat, ReadNat, DecimalSpelled, TruncLine;
    var m := |line| - |PATHS_LEFT|;
    var digits := line[4..m];
    DecimalRead(digits);
    assert line == line[..4] + digits + line[m..];
    TruncLineIs(ReadNat(digits));
  }

  lemma TruncLineIs(n: nat)
    ensures TruncLine(n) == "... " + ShowNat(n) + PATHS_LEFT
  {
    hide ShowNat;
    var front := "... " + ShowNat(n);
    assert " " + "more paths not listed" == PATHS_LEFT;
    assert (front + " ") + "more paths not listed" == front + (" " + "more paths not listed");
  }
}
