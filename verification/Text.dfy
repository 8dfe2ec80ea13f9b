/** Python's string operations on ASCII text, as the scripts use them. */
module Text {

  /** `str.isspace` and the regular expression class `\s`, which agree on ASCII. */
  predicate IsSpace(c: char) {
    c == ' ' || '\t' <= c <= '\r' || '\U{1C}' <= c <= '\U{1F}'
  }

  /** C's `isspace` and Java's `\s`, narrower than Python's. */
  predicate IsCSpace(c: char) { c == ' ' || '\t' <= c <= '\r' }

  predicate IsDigit(c: char) { '0' <= c <= '9' }

  predicate IsUpper(c: char) { 'A' <= c <= 'Z' }

  predicate IsAlpha(c: char) { 'a' <= c <= 'z' || IsUpper(c) }

  predicate AllDigits(s: string) { s != "" && forall i :: 0 <= i < |s| ==> IsDigit(s[i]) }

  function LowerChar(c: char): char {
    if IsUpper(c) then (c as int + 32) as char else c
  }

  /** `str.lower` */
  function Lower(s: string): string { seq(|s|, i requires 0 <= i < |s| => LowerChar(s[i])) }

  /** Blank: nothing left after `strip`. */
  predicate Blank(s: string) { forall i :: 0 <= i < |s| ==> IsSpace(s[i]) }

  /** No white space at either end. */
  predicate Stripped(s: string) { s == "" || (!IsSpace(s[0]) && !IsSpace(s[|s| - 1])) }

  function LStrip(s: string): (r: string)
    ensures |r| <= |s|
    ensures r == "" || !IsSpace(r[0])
  {
    if s != "" && IsSpace(s[0]) then LStrip(s[1..]) else s
  }

  function RStrip(s: string): (r: string)
    ensures r <= s
    ensures r == "" || !IsSpace(r[|r| - 1])
  {
    if s != "" && IsSpace(s[|s| - 1]) then RStrip(s[..|s| - 1]) else s
  }

  /** `str.strip` */
  function Strip(s: string): (r: string)
    ensures Stripped(r)
  {
    RStrip(LStrip(s))
  }

  lemma StripFixed(s: string)
    requires Stripped(s)
    ensures LStrip(s) == s && RStrip(s) == s && Strip(s) == s
  {}

  lemma LStripFixed(s: string)
    requires s == "" || !IsSpace(s[0])
    ensures LStrip(s) == s
  {}

  /** Leading blanks do not matter to `strip`. */
  lemma {:induction false} StripPadded(pad: string, s: string)
    requires Blank(pad)
    ensures LStrip(pad + s) == LStrip(s)
    ensures Strip(pad + s) == Strip(s)
  {
    hide RStrip;
    if pad == "" {
      assert pad + s == s;
    } else {
      assert (pad + s)[1..] == pad[1..] + s;
      StripPadded(pad[1..], s);
    }
  }

  lemma {:induction false} LStripChars(s: string, c: char)
    requires c in LStrip(s)
    ensures c in s
  {
    if s != "" && IsSpace(s[0]) {
      LStripChars(s[1..], c);
    }
  }

  lemma StripChars(s: string, c: char)
    requires c in Strip(s)
    ensures c in s
  {
    LStripChars(s, c);
  }

  lemma {:induction false} StripBlank(s: string)
    ensures LStrip(s) == "" <==> Blank(s)
    ensures Strip(s) == "" <==> Blank(s)
  {
    if s != "" && IsSpace(s[0]) {
      StripBlank(s[1..]);
      assert s == [s[0]] + s[1..];
    }
    if LStrip(s) != "" && RStrip(LStrip(s)) == "" {
      RStripKeeps(LStrip(s));
    }
  }

  lemma {:induction false} RStripKeeps(s: string)
    requires s != "" && !IsSpace(s[0])
    ensures RStrip(s) != "" && RStrip(s)[0] == s[0]
  {
    if IsSpace(s[|s| - 1]) {
      RStripKeeps(s[..|s| - 1]);
    }
  }

  /** `s.strip('\n')` */
  function TrimLeft(s: string): (r: string)
    ensures r == "" || r[0] != '\n'
    ensures forall c :: c in r ==> c in s
  {
    if s != "" && s[0] == '\n' then TrimLeft(s[1..]) else s
  }

  function TrimRight(s: string): (r: string)
    ensures r <= s
    ensures r == "" || r[|r| - 1] != '\n'
  {
    if s != "" && s[|s| - 1] == '\n' then TrimRight(s[..|s| - 1]) else s
  }

  function TrimNewlines(s: string): (r: string)
    ensures r == "" || (r[0] != '\n' && r[|r| - 1] != '\n')
  {
    TrimRight(TrimLeft(s))
  }

  lemma Subslice<T>(s: seq<T>, i: nat, n: nat, a: nat, b: nat)
    requires i + n <= |s| && a <= b <= n
    ensures s[i + a..i + b] == s[i..i + n][a..b]
  {
    var x, y := s[i + a..i + b], s[i..i + n][a..b];
    assert |x| == |y| && forall k :: 0 <= k < b - a ==> x[k] == y[k];
  }

  /** Index of the first `c`, or the length of `s`. */
  function Find(s: string, c: char): (i: nat)
    ensures i <= |s|
    ensures i < |s| ==> s[i] == c
    ensures c !in s[..i]
  {
    if s == "" || s[0] == c then 0 else 1 + Find(s[1..], c)
  }

  /** The first occurrence ends a `c`-free prefix, whatever follows. */
  lemma {:induction false} FindAfter(a: string, c: char, b: string)
    requires c !in a
    ensures Find(a + [c] + b, c) == |a|
  {
    if a != "" {
      assert (a + [c] + b)[1..] == a[1..] + [c] + b;
      FindAfter(a[1..], c, b);
    }
  }

  /** `s.split(c)` */
  function Split(s: string, c: char): (r: seq<string>)
    ensures |r| > 0
    ensures forall i :: 0 <= i < |r| ==> c !in r[i]
  {
    if s == "" then [""]
    else
      var t := Split(s[1..], c);
      if s[0] == c then [""] + t else [[s[0]] + t[0]] + t[1..]
  }

  /** `sep.join(parts)` */
  function Join(parts: seq<string>, sep: string): string {
    if parts == [] then "" else if |parts| == 1 then parts[0] else parts[0] + sep + Join(parts[1..], sep)
  }

  lemma {:induction false} SplitFree(s: string, c: char, d: char)
    requires d !in s
    ensures forall i :: 0 <= i < |Split(s, c)| ==> d !in Split(s, c)[i]
  {
    if s != "" {
      SplitFree(s[1..], c, d);
    }
  }

  lemma {:induction false} SplitUnbroken(s: string, c: char)
    requires c !in s
    ensures Split(s, c) == [s]
  {
    if s != "" {
      SplitUnbroken(s[1..], c);
      assert s == [s[0]] + s[1..];
    }
  }

  /** Splitting distributes over a separator. */
  lemma {:induction false} SplitAt(a: string, c: char, b: string)
    ensures Split(a + [c] + b, c) == Split(a, c) + Split(b, c)
  {
    if a == "" {
      assert (a + [c] + b)[1..] == b;
    } else {
      assert (a + [c] + b)[1..] == a[1..] + [c] + b;
      SplitAt(a[1..], c, b);
    }
  }

  /** Splitting undoes joining when no part holds the separator. */
  lemma {:induction false} SplitJoin(parts: seq<string>, c: char)
    requires |parts| > 0
    requires forall i :: 0 <= i < |parts| ==> c !in parts[i]
    ensures Split(Join(parts, [c]), c) == parts
  {
    SplitUnbroken(parts[0], c);
    if |parts| > 1 {
      SplitAt(parts[0], c, Join(parts[1..], [c]));
      SplitJoin(parts[1..], c);
    }
  }

  /** Joining undoes splitting, always. */
  lemma {:induction false} JoinSplit(s: string, c: char)
    ensures Join(Split(s, c), [c]) == s
  {
    if s != "" {
      var t := Split(s[1..], c);
      JoinSplit(s[1..], c);
      if s[0] == c {
        assert ([""] + t)[1..] == t;
      } else {
        assert ([[s[0]] + t[0]] + t[1..])[1..] == t[1..];
      }
    }
  }

  lemma {:induction false} JoinFree(parts: seq<string>, sep: string, c: char)
    requires c !in sep && forall i :: 0 <= i < |parts| ==> c !in parts[i]
    ensures c !in Join(parts, sep)
  {
    if |parts| > 1 {
      JoinFree(parts[1..], sep, c);
    }
  }

  /** `s.replace('\r\n', '\n')` */
  function ReplaceCrLf(s: string): (r: string)
    ensures '\r' !in s ==> r == s
  {
    if s == "" then ""
    else if |s| >= 2 && s[0] == '\r' && s[1] == '\n' then ['\n'] + ReplaceCrLf(s[2..])
    else [s[0]] + ReplaceCrLf(s[1..])
  }

  // ---- decimal numbers

  /** Length of the run of digits at the front. */
  function Digits(s: string): (n: nat)
    ensures n <= |s|
    ensures forall i :: 0 <= i < n ==> IsDigit(s[i])
    ensures n < |s| ==> !IsDigit(s[n])
  {
    if s != "" && IsDigit(s[0]) then 1 + Digits(s[1..]) else 0
  }

  function DigitChar(d: nat): (c: char)
    requires d < 10
    ensures IsDigit(c) && DigitValue(c) == d
  {
    ('0' as int + d) as char
  }

  function DigitValue(c: char): nat
    requires IsDigit(c)
  {
    c as int - '0' as int
  }

  /** `str(n)` for a natural number */
  function ShowNat(n: nat): (s: string)
    ensures AllDigits(s)
    ensures ReadNat(s) == n
  {
    if n < 10 then [DigitChar(n)]
    else
      var front := ShowNat(n / 10);
      assert (front + [DigitChar(n % 10)])[..|front|] == front;
      front + [DigitChar(n % 10)]
  }

  /** `int(s)` for a run of digits */
  function ReadNat(s: string): nat
    requires forall i :: 0 <= i < |s| ==> IsDigit(s[i])
  {
    if s == "" then 0 else 10 * ReadNat(s[..|s| - 1]) + DigitValue(s[|s| - 1])
  }
}
