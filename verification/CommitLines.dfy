/** Every line the printer emits is recognised by the parser as what it was. */
module CommitLines {
  import opened Wrappers
  import opened Text
  import opened CommitData
  import opened CommitParser
  import opened CommitPrinter

  /** One line of text, free of carriage returns. */
  predicate Plain(s: string) { '\n' !in s && '\r' !in s }

  predicate GoodRef(key: string) { key != "" && Plain(key) && Stripped(key) && ',' !in key }

  predicate GoodRefs(refs: Refs) {
    refs.Some? ==> forall i :: 0 <= i < |refs.value| ==> GoodRef(refs.value[i])
  }

  predicate GoodFile(f: FileEntry) {
    && IsAction(f.action) && Plain(f.path) && f.path != ""
    && (Stripped(f.path) || (|f.path| == 1 && IsSpace(f.path[0])))
  }

  predicate GoodFiles(files: seq<FileEntry>) { forall i :: 0 <= i < |files| ==> GoodFile(files[i]) }

  lemma HeadRecognised(rev: nat)
    ensures RevHead("## r" + ShowNat(rev)) == Some(rev)
  {
    var s := "r" + ShowNat(rev);
    var line := "## r" + ShowNat(rev);
    assert line[2..] == " " + s;
    StripPadded(" ", s);
    StripFixed(s);
    assert s[1..] == ShowNat(rev);
  }

  lemma DashLine(line: string)
    requires line != "" && line[0] == '-'
    ensures RevHead(line).None? && FenceOf(line).None? && !Blank(line)
  {
    hide Strip;
    assert Tildes(line) == 0;
  }

  lemma KeyBeforeColon(line: string, key: string, after: string)
    requires IsKey(key)
    requires line == "- " + (key + [':'] + after)
    ensures FieldOf(line) == Some(Field(key, Strip(after)))
  {
    hide RStrip, LStrip, Strip;
    var t := key + [':'] + after;
    assert line[0] == '-' && line[1..] == " " + t;
    assert LStrip(line[1..]) == t by {
      StripPadded(" ", t);
      LStripFixed(t);
    }
    FindAfter(key, ':', after);
    assert t[..|key|] == key && t[|key| + 1..] == after;
  }

  lemma FieldRecognised(key: string, value: string)
    requires IsKey(key) && Stripped(value)
    ensures FieldOf(FieldLine(key, value)) == Some(Field(key, value))
    ensures RevHead(FieldLine(key, value)).None? && FenceOf(FieldLine(key, value)).None?
    ensures !Blank(FieldLine(key, value))
  {
    hide RStrip, LStrip, Strip, FieldOf, RevHead, FenceOf;
    var after := if value == "" then "" else " " + value;
    var line := FieldLine(key, value);
    assert line == "- " + (key + [':'] + after);
    DashLine(line);
    KeyBeforeColon(line, key, after);
    StripFixed(value);
    assert Strip(after) == value by {
      StripPadded(" ", value);
    }
  }

  lemma {:induction false} TildesOf(n: nat, tail: string)
    requires tail == "" || tail[0] != '~'
    ensures Tildes(Fenceline(n) + tail) == n
  {
    var s := Fenceline(n) + tail;
    assert forall i :: 0 <= i < n ==> s[i] == '~';
    assert n < |s| ==> s[n] == tail[0];
  }

  lemma FenceRecognised(n: nat, tag: string)
    requires n >= 3 && TagChars(tag)
    ensures FenceOf(Fenceline(n) + tag) == Some(Fence(n, tag))
    ensures RevHead(Fenceline(n) + tag).None?
  {
    var line := Fenceline(n) + tag;
    TildesOf(n, tag);
    assert line[n..] == tag;
    assert Stripped(tag);
    StripFixed(tag);
    assert line[0] == '~';
  }

  lemma FileRecognised(f: FileEntry)
    requires GoodFile(f)
    ensures var line := f.action + " " + f.path;
            !Blank(line) && TruncOf(line).None? && PathOf(line) == Some(f)
  {
    hide RStrip, LStrip;
    var line := f.action + " " + f.path;
    assert line[0] == f.action[0] && line[..1] == f.action;
    assert line[1..] == " " + f.path;
    StripPadded(" ", f.path);
    if Stripped(f.path) {
      StripFixed(f.path);
    } else {
      StripBlank(f.path);
      assert line[|line| - 1..] == f.path;
    }
  }

  lemma CountRecognised(n: nat, tail: string)
    requires tail != "" && Stripped(tail)
    ensures CountBefore("... " + ShowNat(n) + " " + tail, tail) == Some(n)
  {
    hide RStrip, LStrip, Strip;
    var num := ShowNat(n);
    var t := num + " " + tail;
    var line := "... " + num + " " + tail;
    assert line[3] == ' ' && line[..3] == "..." && line[3..] == " " + t;
    assert Strip(line[3..]) == t by {
      StripPadded(" ", t);
      assert t[|t| - 1] == tail[|tail| - 1] && t[0] == num[0];
      StripFixed(t);
    }
    assert t[|num|] == ' ' && t[..|num|] == num && t[|num|..] == " " + tail;
    assert Digits(t) == |num| by {
      assert forall i :: 0 <= i < |num| ==> t[i] == num[i];
    }
    assert LStrip(t[|num|..]) == tail by {
      StripPadded(" ", tail);
      LStripFixed(tail);
    }
  }

  lemma TruncRecognised(n: nat)
    ensures !Blank(TruncLine(n)) && TruncOf(TruncLine(n)) == Some(n)
  {
    hide RStrip, LStrip, Strip, CountBefore;
    CountRecognised(n, "more paths not listed");
    assert TruncLine(n)[0] == '.';
  }

  // ---- reference lists

  /** What a printed reference list reads back as: a lone `?` or `none` changes its meaning. */
  function ReadBackRefs(refs: Refs): Refs {
    match refs
    case None => None
    case Some(keys) =>
      if |keys| == 1 && keys[0] == "?" then None
      else if |keys| == 1 && Lower(keys[0]) == "none" then Some([])
      else refs
  }

  /** The separator and the keys after the first, as `split(',')` sees them. */
  function Spaced(keys: seq<string>): (r: seq<string>) {
    if keys == [] then [] else [" " + keys[0]] + Spaced(keys[1..])
  }

  lemma {:induction false} SplitRefs(keys: seq<string>)
    requires keys != [] && forall i :: 0 <= i < |keys| ==> GoodRef(keys[i])
    ensures Split(Join(keys, ", "), ',') == [keys[0]] + Spaced(keys[1..])
  {
    hide Strip;
    SplitUnbroken(keys[0], ',');
    if |keys| > 1 {
      var rest := Join(keys[1..], ", ");
      SplitRefs(keys[1..]);
      assert Join(keys, ", ") == keys[0] + [','] + (" " + rest);
      SplitAt(keys[0], ',', " " + rest);
      assert (" " + rest)[1..] == rest;
      assert Split(" " + rest, ',') == [" " + keys[1]] + Spaced(keys[2..]);
      assert keys[1..][1..] == keys[2..];
    }
  }

  lemma {:induction false} SpacedParts(keys: seq<string>)
    requires forall i :: 0 <= i < |keys| ==> GoodRef(keys[i])
    ensures NonBlankParts(Spaced(keys)) == keys
  {
    hide Strip;
    if keys != [] {
      StripPadded(" ", keys[0]);
      StripFixed(keys[0]);
      SpacedParts(keys[1..]);
    }
  }

  lemma {:induction false} JoinEnds(keys: seq<string>)
    requires keys != [] && forall i :: 0 <= i < |keys| ==> GoodRef(keys[i])
    ensures var v := Join(keys, ", "); v != "" && Stripped(v)
    ensures Plain(Join(keys, ", "))
    ensures |keys| > 1 ==> ',' in Join(keys, ", ")
  {
    if |keys| > 1 {
      JoinEnds(keys[1..]);
      var rest := Join(keys[1..], ", ");
      var v := keys[0] + ", " + rest;
      assert v[|keys[0]|] == ',';
      assert v[|v| - 1] == rest[|rest| - 1];
    }
  }

  lemma FirstPart(keys: seq<string>)
    requires keys != [] && forall i :: 0 <= i < |keys| ==> GoodRef(keys[i])
    ensures NonBlankParts([keys[0]] + Spaced(keys[1..])) == keys
  {
    hide Strip;
    StripFixed(keys[0]);
    SpacedParts(keys[1..]);
    assert ([keys[0]] + Spaced(keys[1..]))[1..] == Spaced(keys[1..]);
  }

  lemma RefsRecognised(refs: Refs)
    requires GoodRefs(refs)
    ensures Stripped(FormatRefs(refs)) && Plain(FormatRefs(refs))
    ensures ParseRefs(FormatRefs(refs)) == ReadBackRefs(refs)
  {
    hide Strip, Split, NonBlankParts;
    var v := FormatRefs(refs);
    if refs.Some? && refs.value != [] {
      var keys := refs.value;
      JoinEnds(keys);
      StripFixed(v);
      SplitRefs(keys);
      FirstPart(keys);
      if |keys| > 1 {
        CommaNotNone(v);
      }
    } else if refs == Some([]) {
      StripFixed("none");
      assert Lower("none") == "none";
    } else {
      StripFixed("?");
    }
  }

  lemma CommaNotNone(v: string)
    requires ',' in v
    ensures Lower(v) != "none" && v != "?"
  {
    var i :| 0 <= i < |v| && v[i] == ',';
    assert Lower(v)[i] == ',';
  }

}
