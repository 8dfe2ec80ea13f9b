/** match_component: the hand-written glob over one folder name. */
module Glob {
  import opened Text

  /** What the wildcards mean: `*` any run of characters, `?` any one, letters in either case. */
  predicate Matches(pat: string, name: string)
    decreases |pat| + |name|
  {
    if pat == "" then name == ""
    else if pat[0] == '*' then Matches(pat[1..], name) || (name != "" && Matches(pat, name[1..]))
    else name != "" && CharMatches(pat[0], name[0]) && Matches(pat[1..], name[1..])
  }

  predicate CharMatches(p: char, c: char) { p == '?' || LowerChar(p) == LowerChar(c) }

  /** What the code accepts: after a `*` it never tries the empty rest of the name. */
  predicate Accepts(pat: string, name: string)
    decreases |pat|, |name|, 0
  {
    if pat == "" then name == ""
    else if pat[0] == '*' then pat == "*" || AcceptsSomeTail(pat[1..], name)
    else name != "" && CharMatches(pat[0], name[0]) && Accepts(pat[1..], name[1..])
  }

  predicate AcceptsSomeTail(pat: string, name: string)
    decreases |pat|, |name|, 1
  {
    name != "" && (Accepts(pat, name) || AcceptsSomeTail(pat, name[1..]))
  }

  /** `match_component`: pointers as positions. */
  method MatchComponent(pat: string, name: string) returns (r: bool)
    ensures r == Accepts(pat, name)
    decreases |pat|
  {
    var p, n := 0, 0;
    while p < |pat|
      invariant 0 <= p <= |pat| && 0 <= n <= |name|
      invariant Accepts(pat, name) == Accepts(pat[p..], name[n..])
    {
      if pat[p] == '*' {
        p := p + 1;
        if p == |pat| { return true; }
        ghost var start := n;
        assert AcceptsSomeTail(pat[p..], name[n..]) == Accepts(pat, name);
        while n < |name|
          invariant start <= n <= |name|
          invariant AcceptsSomeTail(pat[p..], name[n..]) == Accepts(pat, name)
        {
          var hit := MatchComponent(pat[p..], name[n..]);
          if hit { return true; }
          n := n + 1;
        }
        return false;
      }
      if n == |name| { return false; }
      if pat[p] != '?' && LowerChar(pat[p]) != LowerChar(name[n]) { return false; }
      p := p + 1;
      n := n + 1;
    }
    return n == |name|;
  }

  lemma {:induction false} SomeTailSound(pat: string, name: string)
    requires AcceptsSomeTail(pat, name)
    ensures Matches(['*'] + pat, name)
    decreases |pat|, |name|, 1
  {
    assert (['*'] + pat)[1..] == pat;
    if Accepts(pat, name) {
      AcceptsSound(pat, name);
    } else {
      SomeTailSound(pat, name[1..]);
    }
  }

  /** Whatever the code accepts does match. */
  lemma {:induction false} AcceptsSound(pat: string, name: string)
    requires Accepts(pat, name)
    ensures Matches(pat, name)
    decreases |pat|, |name|, 0
  {
    if pat == "" {
    } else if pat[0] == '*' {
      if pat == "*" {
        StarMatchesAll(name);
      } else {
        SomeTailSound(pat[1..], name);
        assert pat == ['*'] + pat[1..];
      }
    } else {
      AcceptsSound(pat[1..], name[1..]);
    }
  }

  lemma {:induction false} StarMatchesAll(name: string)
    ensures Matches("*", name)
  {
    assert "*"[1..] == "";
    if name != "" {
      StarMatchesAll(name[1..]);
    }
  }

  predicate EndsInTwoStars(pat: string) { |pat| > 1 && pat[|pat| - 1] == '*' && pat[|pat| - 2] == '*' }

  /** A pattern that is not empty and not all stars needs at least one character. */
  lemma {:induction false} NeedsAName(pat: string)
    requires pat != "" && pat != "*" && !EndsInTwoStars(pat)
    ensures !Matches(pat, "")
  {
    if pat[0] == '*' {
      var rest := pat[1..];
      assert |pat| == 2 ==> rest[0] != '*';
      assert |rest| > 1 ==> rest[|rest| - 2] == pat[|pat| - 2];
      NeedsAName(rest);
    }
  }

  lemma {:induction false} StarTail(pat: string, name: string)
    requires pat != "" && Matches(['*'] + pat, name) && !Matches(pat, "")
    requires forall n: string :: |n| <= |name| && Matches(pat, n) ==> Accepts(pat, n)
    ensures AcceptsSomeTail(pat, name)
    decreases |name|
  {
    assert (['*'] + pat)[1..] == pat;
    if !Matches(pat, name) {
      StarTail(pat, name[1..]);
    }
  }

  /** And whatever matches is accepted, unless the pattern ends in two stars. */
  lemma {:induction false} AcceptsComplete(pat: string, name: string)
    requires !EndsInTwoStars(pat) && Matches(pat, name)
    ensures Accepts(pat, name)
    decreases |pat|, |name|, 0
  {
    if pat != "" && pat != "*" {
      var rest := pat[1..];
      assert |rest| > 1 ==> rest[|rest| - 2] == pat[|pat| - 2];
      if pat[0] == '*' {
        assert pat == ['*'] + rest;
        assert rest != "*" by { assert rest[|rest| - 1] == pat[|pat| - 1]; }
        NeedsAName(rest);
        forall n: string | |n| <= |name| && Matches(rest, n) ensures Accepts(rest, n) {
          AcceptsComplete(rest, n);
        }
        StarTail(rest, name);
      } else {
        AcceptsComplete(rest, name[1..]);
      }
    }
  }

  // ---- the exact limit

  /** The pattern without its stars: the shortest name it describes. */
  function Starless(pat: string): string {
    if pat == "" then "" else (if pat[0] == '*' then "" else [pat[0]]) + Starless(pat[1..])
  }

  lemma {:induction false} StarlessMatches(pat: string)
    ensures Matches(pat, Starless(pat))
  {
    if pat != "" {
      StarlessMatches(pat[1..]);
      if pat[0] == '*' {
        assert Starless(pat) == Starless(pat[1..]);
      } else {
        assert Starless(pat)[1..] == Starless(pat[1..]);
      }
    }
  }

  lemma {:induction false} SomeTailLong(pat: string, name: string)
    requires AcceptsSomeTail(pat, name) && EndsInTwoStars(pat)
    ensures |name| > |Starless(pat)|
    decreases |pat|, |name|, 1
  {
    if Accepts(pat, name) {
      AcceptsLong(pat, name);
    } else {
      SomeTailLong(pat, name[1..]);
    }
  }

  /** With two stars at the end the code asks for one character too many. */
  lemma {:induction false} AcceptsLong(pat: string, name: string)
    requires Accepts(pat, name) && EndsInTwoStars(pat)
    ensures |name| > |Starless(pat)|
    decreases |pat|, |name|, 0
  {
    var rest := pat[1..];
    if pat[0] == '*' {
      if |pat| == 2 {
        assert rest == "*";
        assert Starless("*") == "" by { assert "*"[1..] == ""; }
      } else {
        assert rest[|rest| - 2] == pat[|pat| - 2];
        SomeTailLong(rest, name);
      }
    } else {
      assert rest[|rest| - 2] == pat[|pat| - 2];
      AcceptsLong(rest, name[1..]);
    }
  }

  /** The code decides the glob relation for every name exactly when the pattern does not end in two stars. */
  lemma ExactIff(pat: string)
    ensures (forall name :: Accepts(pat, name) <==> Matches(pat, name)) <==> !EndsInTwoStars(pat)
  {
    if EndsInTwoStars(pat) {
      var name := Starless(pat);
      StarlessMatches(pat);
      assert !Accepts(pat, name) by {
        if Accepts(pat, name) { AcceptsLong(pat, name); }
      }
      assert Matches(pat, name) != Accepts(pat, name);
    } else {
      forall name ensures Accepts(pat, name) <==> Matches(pat, name) {
        if Accepts(pat, name) { AcceptsSound(pat, name); }
        if Matches(pat, name) { AcceptsComplete(pat, name); }
      }
    }
  }

  // ---- what the wildcards mean, piece by piece

  /** The same character, or the same letter in the other case: capitals and small letters lie 32 apart. */
  predicate SameLetter(a: char, b: char) {
    || a == b
    || ('A' <= a <= 'Z' && 'a' <= b <= 'z' && b as int == a as int + 32)
    || ('a' <= a <= 'z' && 'A' <= b <= 'Z' && a as int == b as int + 32)
  }

  predicate SameButCase(a: string, b: string) {
    |a| == |b| && forall i :: 0 <= i < |a| ==> SameLetter(a[i], b[i])
  }

  lemma SameButCaseTail(a: string, b: string)
    requires SameButCase(a, b) && a != ""
    ensures SameLetter(a[0], b[0]) && SameButCase(a[1..], b[1..])
  {}

  lemma CharCase(p: char, q: char, a: char, b: char)
    requires SameLetter(p, q) && SameLetter(a, b)
    ensures CharMatches(p, a) <==> CharMatches(q, b)
    ensures p == '*' <==> q == '*'
  {}

  /** Case makes no difference to what the code accepts, in the pattern or in the name. */
  lemma {:induction false} AcceptsCase(p: string, q: string, a: string, b: string)
    requires SameButCase(p, q) && SameButCase(a, b)
    ensures Accepts(p, a) <==> Accepts(q, b)
    decreases |p|, |a|, 0
  {
    hide SameLetter, SameButCase, CharMatches;
    assert |p| == |q| && |a| == |b| by { SameLength(p, q); SameLength(a, b); }
    if p != "" {
      SameButCaseTail(p, q);
      if a != "" {
        SameButCaseTail(a, b);
        CharCase(p[0], q[0], a[0], b[0]);
      } else {
        CharCase(p[0], q[0], 'x', 'x');
      }
      if p[0] == '*' {
        SomeTailCase(p[1..], q[1..], a, b);
        assert p == "*" <==> q == "*";
      } else if a != "" {
        AcceptsCase(p[1..], q[1..], a[1..], b[1..]);
      }
    }
  }

  lemma {:induction false} SomeTailCase(p: string, q: string, a: string, b: string)
    requires SameButCase(p, q) && SameButCase(a, b)
    ensures AcceptsSomeTail(p, a) <==> AcceptsSomeTail(q, b)
    decreases |p|, |a|, 1
  {
    hide SameLetter, SameButCase, Accepts;
    assert |a| == |b| by { SameLength(a, b); }
    if a != "" {
      AcceptsCase(p, q, a, b);
      SameButCaseTail(a, b);
      SomeTailCase(p, q, a[1..], b[1..]);
    }
  }

  lemma SameLength(a: string, b: string)
    requires SameButCase(a, b)
    ensures |a| == |b| && (a != "" ==> SameLetter(a[0], b[0]))
  {}

  /** Nor to what matches. */
  lemma {:induction false} MatchesCase(p: string, q: string, a: string, b: string)
    requires SameButCase(p, q) && SameButCase(a, b)
    ensures Matches(p, a) <==> Matches(q, b)
    decreases |p| + |a|
  {
    hide SameLetter, SameButCase, CharMatches;
    assert |p| == |q| && |a| == |b| by { SameLength(p, q); SameLength(a, b); }
    if p != "" {
      SameButCaseTail(p, q);
      if a != "" {
        SameButCaseTail(a, b);
        CharCase(p[0], q[0], a[0], b[0]);
      } else {
        CharCase(p[0], q[0], 'x', 'x');
      }
      if p[0] == '*' {
        MatchesCase(p[1..], q[1..], a, b);
        if a != "" {
          MatchesCase(p, q, a[1..], b[1..]);
        }
      } else if a != "" {
        MatchesCase(p[1..], q[1..], a[1..], b[1..]);
      }
    }
  }

  /** Without wildcards a pattern is accepted exactly for its own letters, in either case. */
  lemma {:induction false} LiteralIff(pat: string, name: string)
    requires '*' !in pat && '?' !in pat
    ensures Accepts(pat, name) <==> SameButCase(pat, name)
    ensures Matches(pat, name) <==> SameButCase(pat, name)
  {
    if pat != "" && name != "" {
      LiteralIff(pat[1..], name[1..]);
      assert pat[0] in pat;
      assert CharMatches(pat[0], name[0]) <==> SameLetter(pat[0], name[0]);
      assert SameButCase(pat, name) <==> SameLetter(pat[0], name[0]) && SameButCase(pat[1..], name[1..]) by {
        SameButCaseCons(pat, name);
      }
    }
  }

  lemma SameButCaseCons(a: string, b: string)
    requires a != "" && b != ""
    ensures SameButCase(a, b) <==> SameLetter(a[0], b[0]) && SameButCase(a[1..], b[1..])
  {
    hide SameLetter;
    if SameLetter(a[0], b[0]) && SameButCase(a[1..], b[1..]) {
      forall i | 0 <= i < |a| ensures SameLetter(a[i], b[i]) {
        if i > 0 { assert a[i] == a[1..][i - 1] && b[i] == b[1..][i - 1]; }
      }
    }
  }

  /** Question marks ask for as many characters, whichever. */
  lemma {:induction false} MarksIff(pat: string, name: string)
    requires forall i :: 0 <= i < |pat| ==> pat[i] == '?'
    ensures Accepts(pat, name) <==> |name| == |pat|
    ensures Matches(pat, name) <==> |name| == |pat|
  {
    if pat != "" && name != "" {
      MarksIff(pat[1..], name[1..]);
    }
  }

  /** A star stands for any beginning of the name. */
  lemma {:induction false} StarIff(pat: string, name: string)
    ensures Matches("*" + pat, name) <==> exists k :: 0 <= k <= |name| && Matches(pat, name[k..])
    decreases |name|
  {
    var p := "*" + pat;
    assert p[1..] == pat && p[0] == '*' && name[0..] == name;
    if name != "" {
      StarIff(pat, name[1..]);
      if k :| 0 <= k <= |name| && Matches(pat, name[k..]) && k > 0 {
        assert name[1..][k - 1..] == name[k..];
      }
      if k :| 0 <= k <= |name[1..]| && Matches(pat, name[1..][k..]) {
        assert name[1..][k..] == name[k + 1..];
      }
    }
  }

  /** A piece without stars takes as many characters as it has, and the rest of the pattern the rest. */
  lemma {:induction false} PieceIff(piece: string, pat: string, name: string)
    requires '*' !in piece
    ensures Matches(piece + pat, name)
       <==> |piece| <= |name| && Matches(piece, name[..|piece|]) && Matches(pat, name[|piece|..])
  {
    if piece == "" {
      assert piece + pat == pat && name[0..] == name;
    } else {
      assert piece[0] in piece && (piece + pat)[1..] == piece[1..] + pat && (piece + pat)[0] == piece[0];
      if name != "" {
        PieceIff(piece[1..], pat, name[1..]);
        if |piece| <= |name| {
          assert name[..|piece|][1..] == name[1..][..|piece| - 1] && name[1..][|piece| - 1..] == name[|piece|..];
        }
      }
    }
  }
}
