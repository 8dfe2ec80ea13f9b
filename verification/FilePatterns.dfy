/** How a pattern is cut into its literal base and its components. */
module FilePatterns {
  import opened Wrappers
  import opened Text
  import opened FileSearch

  predicate Backslashes(s: string) { forall i :: 0 <= i < |s| ==> s[i] == '\\' }

  lemma {:induction false} SkipRun(seps: string, rest: string)
    requires Backslashes(seps) && (rest == "" || rest[0] != '\\')
    ensures SkipSlashes(seps + rest) == rest
  {
    if seps == "" {
      assert seps + rest == rest;
    } else {
      assert (seps + rest)[1..] == seps[1..] + rest;
      SkipRun(seps[1..], rest);
    }
  }

  /** A component ends at a separator; further separators are skipped; an overlong one spoils the pattern. */
  lemma ComponentsStep(folder: string, seps: string, rest: string)
    requires '\\' !in folder && Backslashes(seps) && rest != "" && rest[0] != '\\'
    ensures Components(folder + "\\" + seps + rest)
         == if |folder| >= MAX_PATH || Components(rest).None? then None
            else Some(Pattern([folder] + Components(rest).value.folders, Components(rest).value.file))
  {
    var pat := folder + "\\" + seps + rest;
    var tail := seps + rest;
    assert pat == folder + ['\\'] + tail;
    FindAfter(folder, '\\', tail);
    assert pat[|folder| + 1..] == tail && pat[..|folder|] == folder;
    SkipRun(seps, rest);
  }

  /** A pattern that ends in a separator names no file; one without a separator is a file name. */
  lemma ComponentsEnd(file: string, seps: string)
    requires '\\' !in file && Backslashes(seps)
    ensures Components(file + "\\" + seps) == None
    ensures Components(file) == Some(Pattern([], file))
  {
    var pat := file + "\\" + seps;
    assert pat == file + ['\\'] + seps;
    FindAfter(file, '\\', seps);
    assert pat[|file| + 1..] == seps && seps + "" == seps;
    SkipRun(seps, "");
    FindNone(file, '\\');
  }

  lemma {:induction false} FindNone(s: string, c: char)
    requires c !in s
    ensures Find(s, c) == |s|
  {
    if s != "" {
      assert s[0] in s;
      FindNone(s[1..], c);
    }
  }

  lemma {:induction false} BaseBounds(pattern: string, cut: nat)
    requires cut <= |pattern|
    ensures var n := BaseLength(pattern, cut);
            n <= cut && (n == 0 || pattern[n - 1] == '\\') && forall i :: n <= i < cut ==> pattern[i] != '\\'
    decreases cut
  {
    if cut > 0 && pattern[cut - 1] != '\\' {
      BaseBounds(pattern, cut - 1);
    }
  }

  lemma {:induction false} FirstWildIs(s: string)
    ensures var n := FirstWild(s);
            && (forall i :: 0 <= i < n ==> s[i] != '*' && s[i] != '?')
            && (n < |s| ==> s[n] == '*' || s[n] == '?')
  {
    if s != "" && s[0] != '*' && s[0] != '?' {
      FirstWildIs(s[1..]);
    }
  }

  /** The search starts at the folder that is spelled out up to the last separator before the first wildcard. */
  lemma BaseIs(pattern: string)
    requires Wild(pattern)
    ensures var n, w := BaseLength(pattern, FirstWild(pattern)), FirstWild(pattern);
            && n <= w < |pattern| && (pattern[w] == '*' || pattern[w] == '?')
            && (forall i :: 0 <= i < w ==> pattern[i] != '*' && pattern[i] != '?')
            && (n == 0 || pattern[n - 1] == '\\') && forall i :: n <= i < w ==> pattern[i] != '\\'
  {
    FirstWildIs(pattern);
    BaseBounds(pattern, FirstWild(pattern));
  }

  /** Neither files nor junctions nor the two dots are gone into. */
  lemma EntersFolders(disk: Disk, dir: string, name: string)
    ensures CanEnter(disk, dir, name)
       <==> name != "." && name != ".." && dir in disk && Entry(name, true, false) in disk[dir]
  {
    if CanEnter(disk, dir, name) {
      var e :| Listed(disk, dir, e) && e.name == name && Enterable(e);
      assert e == Entry(name, true, false);
    }
    if dir in disk && Entry(name, true, false) in disk[dir] {
      assert Listed(disk, dir, Entry(name, true, false));
    }
  }
}
