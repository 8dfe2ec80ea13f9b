/** find_match: a recursive search with wildcards, a depth budget and a cap on folders. */
module FileSearch {
  import opened Wrappers
  import opened Text
  import Glob

  const FW_MAX_DIRS := 200000
  const MAX_PATH := 260

  // ---- the file system

  datatype Entry = Entry(name: string, isDir: bool, isReparse: bool)

  /** Folder listings, by path; a path ends in a backslash or is empty. */
  type Disk = map<string, seq<Entry>>

  function Sub(dir: string, name: string): string { dir + name + "\\" }

  predicate Listed(disk: Disk, dir: string, e: Entry) { dir in disk && e in disk[dir] }

  /** A subfolder the enumeration goes into. */
  predicate Enterable(e: Entry) { e.isDir && !e.isReparse && e.name != "." && e.name != ".." }

  ghost predicate CanEnter(disk: Disk, dir: string, name: string) {
    exists e :: Listed(disk, dir, e) && e.name == name && Enterable(e)
  }

  // ---- patterns

  datatype Pattern = Pattern(folders: seq<string>, file: string)

  function SkipSlashes(s: string): (r: string)
    ensures |r| <= |s|
  {
    if s != "" && s[0] == '\\' then SkipSlashes(s[1..]) else s
  }

  /** The folder components and the file name; None for a trailing separator or an overlong folder. */
  function Components(pat: string): Option<Pattern>
    decreases |pat|
  {
    var slash := Find(pat, '\\');
    if slash == |pat| then Some(Pattern([], pat))
    else if slash >= MAX_PATH then None
    else
      var rest := SkipSlashes(pat[slash + 1..]);
      if rest == "" then None
      else
        match Components(rest)
        case None => None
        case Some(p) => Some(Pattern([pat[..slash]] + p.folders, p.file))
  }

  predicate Wild(s: string) { '*' in s || '?' in s }

  // ---- what a match is

  /** Folder names, each a subfolder of the one before. */
  ghost predicate Chain(disk: Disk, dir: string, names: seq<string>)
    decreases |names|
  {
    names == [] || (CanEnter(disk, dir, names[0]) && Chain(disk, Sub(dir, names[0]), names[1..]))
  }

  function Below(dir: string, names: seq<string>): string
    decreases |names|
  {
    if names == [] then dir else Below(Sub(dir, names[0]), names[1..])
  }

  /** The folders that one component may stand for below `dir`. */
  ghost predicate Stands(disk: Disk, dir: string, comp: string, names: seq<string>) {
    if comp == "**" then Chain(disk, dir, names)
    else if comp == "." then names == []
    else if Wild(comp) then |names| == 1 && CanEnter(disk, dir, names[0]) && Glob.Accepts(comp, names[0])
    else names == [comp]
  }

  /** Where each component of a pattern stands for a list of folders, and the file is in the last of them. */
  type Expansion = seq<seq<string>>

  ghost predicate Matches(disk: Disk, named: (string, string) -> bool, dir: string, p: Pattern, x: Expansion,
      path: string)
    decreases |p.folders|
  {
    if p.folders == [] then
      x == [] && exists e :: Listed(disk, dir, e) && !e.isDir && named(p.file, e.name) && path == dir + e.name
    else
      && x != [] && Stands(disk, dir, p.folders[0], x[0])
      && Matches(disk, named, Below(dir, x[0]), Pattern(p.folders[1..], p.file), x[1..], path)
  }

  /** The folders that the `**` components stand for, all together. */
  function Cost(p: Pattern, x: Expansion): nat
    decreases |p.folders|
  {
    if p.folders == [] || x == [] then 0
    else (if p.folders[0] == "**" then |x[0]| else 0) + Cost(Pattern(p.folders[1..], p.file), x[1..])
  }

  /** Folder levels between the literal base and the file. */
  function Levels(x: Expansion): nat {
    if x == [] then 0 else |x[0]| + Levels(x[1..])
  }

  /** Levels every match has, whatever `**` stands for. */
  function FixedLevels(p: Pattern): nat
    decreases |p.folders|
  {
    if p.folders == [] then 0
    else (if p.folders[0] == "**" || p.folders[0] == "." then 0 else 1) + FixedLevels(Pattern(p.folders[1..], p.file))
  }

  lemma {:induction false} LevelsAre(disk: Disk, named: (string, string) -> bool, dir: string, p: Pattern,
      x: Expansion, path: string)
    requires Matches(disk, named, dir, p, x, path)
    ensures Levels(x) == Cost(p, x) + FixedLevels(p)
    decreases |p.folders|
  {
    if p.folders != [] {
      LevelsAre(disk, named, Below(dir, x[0]), Pattern(p.folders[1..], p.file), x[1..], path);
    }
  }

  /** `path` is a match of `pat` below `dir` within the budget. */
  ghost predicate Hit(disk: Disk, named: (string, string) -> bool, dir: string, pat: string, budget: nat,
      x: Expansion, path: string) {
    var p := Components(pat);
    p.Some? && Matches(disk, named, dir, p.value, x, path) && Cost(p.value, x) <= budget
  }

  /** No match of `pat` below `dir` fits the budget. */
  ghost predicate Nothing(disk: Disk, named: (string, string) -> bool, dir: string, pat: string, budget: nat) {
    forall x, path :: !Hit(disk, named, dir, pat, budget, x, path)
  }

  // ---- which of the files in a folder

  /** File `i` of a listing is the first with a fitting name. */
  predicate FirstFile(named: (string, string) -> bool, list: seq<Entry>, pat: string, i: nat)
    requires i < |list|
  {
    && !list[i].isDir && named(pat, list[i].name)
    && forall k :: 0 <= k < i ==> list[k].isDir || !named(pat, list[k].name)
  }

  ghost predicate FirstIn(disk: Disk, named: (string, string) -> bool, dir: string, file: string, path: string) {
    && dir in disk
    && exists i ::
         0 <= i < |disk[dir]| && FirstFile(named, disk[dir], file, i) && path == dir + disk[dir][i].name
  }

  /** The folder that an expansion leads to. */
  function Reached(dir: string, x: Expansion): string
    decreases |x|
  {
    if x == [] then dir else Reached(Below(dir, x[0]), x[1..])
  }

  /** `path` is the file listed first, of those that fit, in the folder the expansion leads to. */
  ghost predicate FirstListed(
    disk: Disk, named: (string, string) -> bool, dir: string, pat: string, x: Expansion, path: string)
  {
    Components(pat).Some? && FirstIn(disk, named, Reached(dir, x), Components(pat).value.file, path)
  }

  // ---- the same with the wildcards' own meaning

  /** The folders that one component ought to stand for below `dir`. */
  ghost predicate Means(disk: Disk, dir: string, comp: string, names: seq<string>) {
    if comp == "**" then Chain(disk, dir, names)
    else if comp == "." then names == []
    else if Wild(comp) then |names| == 1 && CanEnter(disk, dir, names[0]) && Glob.Matches(comp, names[0])
    else names == [comp]
  }

  ghost predicate Fits(disk: Disk, named: (string, string) -> bool, dir: string, p: Pattern, x: Expansion, path: string)
    decreases |p.folders|
  {
    if p.folders == [] then Matches(disk, named, dir, p, x, path)
    else
      && x != [] && Means(disk, dir, p.folders[0], x[0])
      && Fits(disk, named, Below(dir, x[0]), Pattern(p.folders[1..], p.file), x[1..], path)
  }

  /** `path` is what `pat` asks for below `dir`, its `**` standing for at most `budget` folders. */
  ghost predicate Wanted(
    disk: Disk, named: (string, string) -> bool, dir: string, pat: string, budget: nat, x: Expansion, path: string)
  {
    var p := Components(pat);
    p.Some? && Fits(disk, named, dir, p.value, x, path) && Cost(p.value, x) <= budget
  }

  /** Nothing that `pat` asks for, however deep, has fewer folder levels. */
  ghost predicate Least(disk: Disk, named: (string, string) -> bool, dir: string, pat: string, levels: nat) {
    forall y, path, b :: Wanted(disk, named, dir, pat, b, y, path) ==> levels <= Levels(y)
  }

  /** Nothing that `pat` asks for fits the budget. */
  ghost predicate Unmet(disk: Disk, named: (string, string) -> bool, dir: string, pat: string, budget: nat) {
    forall x, path :: !Wanted(disk, named, dir, pat, budget, x, path)
  }

  /** No folder component ends in two stars, but for `**` itself. */
  predicate Fair(folders: seq<string>) {
    forall i :: 0 <= i < |folders| ==> folders[i] == "**" || !Glob.EndsInTwoStars(folders[i])
  }

  predicate FairPattern(pat: string) { Components(pat).Some? ==> Fair(Components(pat).value.folders) }

  lemma StandsMeans(disk: Disk, dir: string, comp: string, names: seq<string>)
    ensures Stands(disk, dir, comp, names) ==> Means(disk, dir, comp, names)
    ensures comp == "**" || !Glob.EndsInTwoStars(comp) ==>
              (Means(disk, dir, comp, names) ==> Stands(disk, dir, comp, names))
  {
    hide Chain, CanEnter, Glob.Matches, Glob.Accepts;
    if comp != "**" && |names| == 1 {
      if Glob.Accepts(comp, names[0]) {
        Glob.AcceptsSound(comp, names[0]);
      }
      if Glob.Matches(comp, names[0]) && !Glob.EndsInTwoStars(comp) {
        Glob.AcceptsComplete(comp, names[0]);
      }
    }
  }

  lemma {:induction false} MatchesFits(
    disk: Disk, named: (string, string) -> bool, dir: string, p: Pattern, x: Expansion, path: string)
    ensures Matches(disk, named, dir, p, x, path) ==> Fits(disk, named, dir, p, x, path)
    ensures Fair(p.folders) ==> (Fits(disk, named, dir, p, x, path) ==> Matches(disk, named, dir, p, x, path))
    decreases |p.folders|
  {
    hide Stands, Means;
    if p.folders != [] && x != [] {
      StandsMeans(disk, dir, p.folders[0], x[0]);
      assert Fair(p.folders) ==> Fair(p.folders[1..]);
      MatchesFits(disk, named, Below(dir, x[0]), Pattern(p.folders[1..], p.file), x[1..], path);
    }
  }

  lemma HitIsWanted(disk: Disk, named: (string, string) -> bool, dir: string, pat: string)
    ensures forall b, x, path :: Hit(disk, named, dir, pat, b, x, path) ==> Wanted(disk, named, dir, pat, b, x, path)
    ensures FairPattern(pat) ==>
              forall b, x, path :: Wanted(disk, named, dir, pat, b, x, path) ==> Hit(disk, named, dir, pat, b, x, path)
  {
    hide Matches, Fits, Fair, Components;
    var p := Components(pat);
    if p.Some? {
      forall x, path
        ensures Matches(disk, named, dir, p.value, x, path) ==> Fits(disk, named, dir, p.value, x, path)
        ensures Fair(p.value.folders) ==>
                  (Fits(disk, named, dir, p.value, x, path) ==> Matches(disk, named, dir, p.value, x, path))
      {
        MatchesFits(disk, named, dir, p.value, x, path);
      }
    }
  }

  /** Fewest levels among the matches is fewest among what is wanted. */
  lemma LeastWanted(disk: Disk, named: (string, string) -> bool, dir: string, pat: string)
    ensures FairPattern(pat) ==>
              forall levels: nat ::
                (forall y, path, b :: Hit(disk, named, dir, pat, b, y, path) ==> levels <= Levels(y))
                ==> Least(disk, named, dir, pat, levels)
  {
    hide Hit, Wanted, FairPattern, Levels;
    HitIsWanted(disk, named, dir, pat);
  }

  lemma NothingWanted(disk: Disk, named: (string, string) -> bool, dir: string, pat: string, budget: nat)
    ensures FairPattern(pat) && Nothing(disk, named, dir, pat, budget) ==> Unmet(disk, named, dir, pat, budget)
  {
    hide Hit, Wanted, FairPattern;
    HitIsWanted(disk, named, dir, pat);
  }

  // ---- how matches of a pattern arise from matches of its tail

  /** `pat` is a folder component, separators and a non-empty tail. */
  predicate Splits(pat: string, comp: string, rest: string) {
    var slash := Find(pat, '\\');
    slash < |pat| && slash < MAX_PATH && comp == pat[..slash] && rest == SkipSlashes(pat[slash + 1..]) && rest != ""
  }

  /** A match of the tail below the folders the component stands for is a match of the whole. */
  lemma HitStep(disk: Disk, named: (string, string) -> bool, dir: string, pat: string, comp: string, rest: string,
                names: seq<string>, b: nat, budget: nat, x: Expansion, path: string)
    requires Splits(pat, comp, rest) && Stands(disk, dir, comp, names)
    requires Hit(disk, named, Below(dir, names), rest, b, x, path)
    requires b + (if comp == "**" then |names| else 0) <= budget
    ensures Hit(disk, named, dir, pat, budget, [names] + x, path)
  {
    hide Chain, Glob.Accepts, Stands;
    var p := Components(pat).value;
    assert p.folders[1..] == Components(rest).value.folders;
    assert ([names] + x)[1..] == x;
  }

  /** And every match of the whole arises so. */
  lemma HitSplits(disk: Disk, named: (string, string) -> bool, dir: string, pat: string, comp: string, rest: string,
                  budget: nat, x: Expansion, path: string)
    requires Splits(pat, comp, rest) && Hit(disk, named, dir, pat, budget, x, path)
    ensures x != [] && Stands(disk, dir, comp, x[0])
    ensures comp == "**" ==> |x[0]| <= budget
    ensures Hit(disk, named, Below(dir, x[0]), rest, if comp == "**" then budget - |x[0]| else budget, x[1..], path)
  {
    hide Chain, Glob.Accepts, Stands;
    var p := Components(pat).value;
    assert p.folders[1..] == Components(rest).value.folders;
  }

  lemma WildDown(disk: Disk, named: (string, string) -> bool, dir: string, pat: string, comp: string, rest: string,
                 budget: nat, x: Expansion, path: string)
    requires Splits(pat, comp, rest) && comp != "**" && comp != "." && Wild(comp)
    requires Hit(disk, named, dir, pat, budget, x, path)
    ensures exists n :: CanEnter(disk, dir, n) && Glob.Accepts(comp, n)
              && !Nothing(disk, named, Sub(dir, n), rest, budget)
  {
    hide Hit, Glob.Accepts;
    HitSplits(disk, named, dir, pat, comp, rest, budget, x, path);
    var n := x[0][0];
    assert x[0][1..] == [];
    assert Below(dir, x[0]) == Sub(dir, n);
    assert Hit(disk, named, Sub(dir, n), rest, budget, x[1..], path);
  }

  lemma WildNothing(disk: Disk, named: (string, string) -> bool, dir: string, pat: string, comp: string, rest: string,
      budget: nat)
    requires Splits(pat, comp, rest) && comp != "**" && comp != "." && Wild(comp)
    requires forall n :: CanEnter(disk, dir, n) && Glob.Accepts(comp, n) ==>
              Nothing(disk, named, Sub(dir, n), rest, budget)
    ensures Nothing(disk, named, dir, pat, budget)
  {
    hide Hit, Glob.Accepts, Splits, Wild, CanEnter;
    forall x, path ensures !Hit(disk, named, dir, pat, budget, x, path) {
      if Hit(disk, named, dir, pat, budget, x, path) {
        WildDown(disk, named, dir, pat, comp, rest, budget, x, path);
      }
    }
  }

  lemma PlainDown(disk: Disk, named: (string, string) -> bool, dir: string, pat: string, comp: string, rest: string,
                  budget: nat, x: Expansion, path: string)
    requires Splits(pat, comp, rest) && comp != "**" && (comp == "." || !Wild(comp))
    requires Hit(disk, named, dir, pat, budget, x, path)
    ensures x != [] && Hit(disk, named, if comp == "." then dir else Sub(dir, comp), rest, budget, x[1..], path)
  {
    hide Hit, Glob.Accepts;
    HitSplits(disk, named, dir, pat, comp, rest, budget, x, path);
    assert [comp][1..] == [];
    assert Below(dir, x[0]) == if comp == "." then dir else Sub(dir, comp);
  }

  lemma PlainNothing(disk: Disk, named: (string, string) -> bool, dir: string, pat: string, comp: string,
      rest: string, budget: nat)
    requires Splits(pat, comp, rest) && comp != "**" && (comp == "." || !Wild(comp))
    requires Nothing(disk, named, if comp == "." then dir else Sub(dir, comp), rest, budget)
    ensures Nothing(disk, named, dir, pat, budget)
  {
    hide Hit, Splits, Wild;
    forall x, path ensures !Hit(disk, named, dir, pat, budget, x, path) {
      if Hit(disk, named, dir, pat, budget, x, path) {
        PlainDown(disk, named, dir, pat, comp, rest, budget, x, path);
      }
    }
  }

  /** A `**` stands for no folder, or for a subfolder and what a `**` stands for below it. */
  lemma DeepDown(disk: Disk, named: (string, string) -> bool, dir: string, pat: string, rest: string,
                 budget: nat, x: Expansion, path: string)
    requires Splits(pat, "**", rest) && Hit(disk, named, dir, pat, budget, x, path)
    ensures !Nothing(disk, named, dir, rest, budget)
         || (budget > 0 && exists n :: CanEnter(disk, dir, n) && !Nothing(disk, named, Sub(dir, n), pat, budget - 1))
  {
    hide Hit;
    HitSplits(disk, named, dir, pat, "**", rest, budget, x, path);
    var names := x[0];
    if names == [] {
      assert Hit(disk, named, dir, rest, budget, x[1..], path);
    } else {
      var n, deeper := names[0], names[1..];
      HitStep(disk, named, Sub(dir, n), pat, "**", rest, deeper, budget - |names|, budget - 1, x[1..], path);
      assert CanEnter(disk, dir, n) && !Nothing(disk, named, Sub(dir, n), pat, budget - 1);
    }
  }

  lemma DeepNothing(disk: Disk, named: (string, string) -> bool, dir: string, pat: string, rest: string, budget: nat)
    requires Splits(pat, "**", rest)
    requires Nothing(disk, named, dir, rest, budget)
    requires budget > 0 ==> forall n :: CanEnter(disk, dir, n) ==> Nothing(disk, named, Sub(dir, n), pat, budget - 1)
    ensures Nothing(disk, named, dir, pat, budget)
  {
    forall x, path ensures !Hit(disk, named, dir, pat, budget, x, path) {
      hide Hit, Splits, CanEnter;
      if Hit(disk, named, dir, pat, budget, x, path) {
        DeepDown(disk, named, dir, pat, rest, budget, x, path);
      }
    }
  }

  lemma DeepHit(disk: Disk, named: (string, string) -> bool, dir: string, pat: string, rest: string, n: string,
                budget: nat, x: Expansion, path: string)
    requires Splits(pat, "**", rest) && CanEnter(disk, dir, n) && budget > 0
    requires Hit(disk, named, Sub(dir, n), pat, budget - 1, x, path)
    ensures x != [] && Hit(disk, named, dir, pat, budget, [[n] + x[0]] + x[1..], path)
  {
    hide Hit;
    HitSplits(disk, named, Sub(dir, n), pat, "**", rest, budget - 1, x, path);
    var names := [n] + x[0];
    assert names[1..] == x[0];
    HitStep(disk, named, dir, pat, "**", rest, names, budget - 1 - |x[0]|, budget, x[1..], path);
  }

  lemma FirstStep(disk: Disk, named: (string, string) -> bool, dir: string, pat: string, comp: string, rest: string,
                  names: seq<string>, x: Expansion, path: string)
    requires Splits(pat, comp, rest) && FirstListed(disk, named, Below(dir, names), rest, x, path)
    ensures FirstListed(disk, named, dir, pat, [names] + x, path)
  {
    hide FirstIn;
    assert ([names] + x)[1..] == x;
  }

  lemma DeepFirst(disk: Disk, named: (string, string) -> bool, dir: string, pat: string, n: string,
                  x: Expansion, path: string)
    requires x != [] && FirstListed(disk, named, Sub(dir, n), pat, x, path)
    ensures FirstListed(disk, named, dir, pat, [[n] + x[0]] + x[1..], path)
  {
    hide FirstIn;
    var names := [n] + x[0];
    assert names[1..] == x[0];
    assert ([names] + x[1..])[1..] == x[1..];
  }

  // ---- the literal base

  /** Start of the component that holds the first wildcard. */
  function BaseLength(pattern: string, cut: nat): (n: nat)
    requires cut <= |pattern|
    ensures n <= cut
  {
    if cut > 0 && pattern[cut - 1] != '\\' then BaseLength(pattern, cut - 1) else cut
  }

  function FirstWild(s: string): (n: nat)
    ensures n <= |s|
    ensures n == |s| <==> !Wild(s)
  {
    if s == "" || s[0] == '*' || s[0] == '?' then 0 else 1 + FirstWild(s[1..])
  }

  predicate HasTwoStars(s: string) { exists i :: 0 <= i < |s| - 1 && s[i] == '*' && s[i + 1] == '*' }

  predicate NoDeep(p: Pattern) { forall i :: 0 <= i < |p.folders| ==> p.folders[i] != "**" }

  lemma {:induction false} NoDeepNoCost(p: Pattern, x: Expansion)
    requires NoDeep(p)
    ensures Cost(p, x) == 0
    decreases |p.folders|
  {
    if p.folders != [] && x != [] {
      var tail := Pattern(p.folders[1..], p.file);
      assert forall i :: 0 <= i < |tail.folders| ==> tail.folders[i] == p.folders[i + 1];
      NoDeepNoCost(tail, x[1..]);
    }
  }

  /** A `**` component shows as two stars in the text. */
  lemma {:induction false} DeepShows(pat: string)
    requires Components(pat).Some? && !NoDeep(Components(pat).value)
    ensures HasTwoStars(pat)
    decreases |pat|
  {
    hide SkipSlashes;
    var slash := Find(pat, '\\');
    var rest := SkipSlashes(pat[slash + 1..]);
    var p := Components(pat).value;
    var i :| 0 <= i < |p.folders| && p.folders[i] == "**";
    if i == 0 {
      StarsAtFront(pat, slash);
    } else {
      assert Components(rest).value.folders[i - 1] == "**";
      DeepShows(rest);
      SkipIsSuffix(pat[slash + 1..]);
      StarsBehind(pat, |pat| - |rest|);
    }
  }

  lemma StarsAtFront(pat: string, n: nat)
    requires n <= |pat| && pat[..n] == "**"
    ensures HasTwoStars(pat)
  {
    assert pat[..n][0] == '*' && pat[..n][1] == '*';
    assert pat[0] == '*' && pat[0 + 1] == '*';
  }

  lemma StarsBehind(pat: string, off: nat)
    requires off <= |pat| && HasTwoStars(pat[off..])
    ensures HasTwoStars(pat)
  {
    var k :| 0 <= k < |pat| - off - 1 && pat[off..][k] == '*' && pat[off..][k + 1] == '*';
    assert pat[off + k] == '*' && pat[(off + k) + 1] == '*';
  }

  lemma {:induction false} SkipIsSuffix(s: string)
    ensures SkipSlashes(s) == s[|s| - |SkipSlashes(s)|..]
  {
    if s != "" && s[0] == '\\' {
      SkipIsSuffix(s[1..]);
    }
  }

  // ---- budgets

  lemma HitRaise(disk: Disk, named: (string, string) -> bool, dir: string, pat: string, b: nat, budget: nat,
      x: Expansion, path: string)
    requires b <= budget && Hit(disk, named, dir, pat, b, x, path)
    ensures Hit(disk, named, dir, pat, budget, x, path)
  {}

  /** A hit at a budget that nothing smaller could satisfy has the fewest levels of all. */
  lemma Shallowest(disk: Disk, named: (string, string) -> bool, dir: string, pat: string, budget: nat, x: Expansion,
      path: string)
    requires Hit(disk, named, dir, pat, budget, x, path)
    requires budget > 0 ==> Nothing(disk, named, dir, pat, budget - 1)
    ensures forall y, path', b :: Hit(disk, named, dir, pat, b, y, path') ==> Levels(x) <= Levels(y)
  {
    hide Matches, Components, Cost, Levels, FixedLevels;
    var p := Components(pat).value;
    LevelsAre(disk, named, dir, p, x, path);
    forall y, path', b | Hit(disk, named, dir, pat, b, y, path') ensures Levels(x) <= Levels(y) {
      LevelsAre(disk, named, dir, p, y, path');
      assert Cost(p, y) >= budget by {
        if budget > 0 { assert !Hit(disk, named, dir, pat, budget - 1, y, path'); }
      }
    }
  }

  /** Without two stars anywhere the budget is irrelevant. */
  lemma ShallowExact(disk: Disk, named: (string, string) -> bool, dir: string, pat: string, depth: nat)
    requires !HasTwoStars(pat)
    ensures Nothing(disk, named, dir, pat, 0) ==> Nothing(disk, named, dir, pat, depth)
  {
    hide Matches, Components, Cost, HasTwoStars, NoDeep;
    forall x, path | Hit(disk, named, dir, pat, depth, x, path) ensures Hit(disk, named, dir, pat, 0, x, path) {
      var p := Components(pat).value;
      assert NoDeep(p) by {
        if !NoDeep(p) { DeepShows(pat); }
      }
      NoDeepNoCost(p, x);
    }
  }

  // ---- how many folders a search can go into

  /** Folders that a search goes into by enumeration if it finds nothing. */
  function Visits(disk: Disk, dir: string, pat: string, budget: nat): nat
    decreases budget, |pat|, 0
  {
    var slash := Find(pat, '\\');
    if slash == |pat| || slash >= MAX_PATH then 0
    else
      var comp, rest := pat[..slash], SkipSlashes(pat[slash + 1..]);
      if rest == "" then 0
      else if comp == "**" then
        Visits(disk, dir, rest, budget)
        + if budget > 0 then VisitsIn(disk, dir, Listing(disk, dir), "*", pat, budget - 1) else 0
      else if comp == "." then Visits(disk, dir, rest, budget)
      else if Wild(comp) then VisitsIn(disk, dir, Listing(disk, dir), comp, rest, budget)
      else Visits(disk, Sub(dir, comp), rest, budget)
  }

  function Listing(disk: Disk, dir: string): seq<Entry> { if dir in disk then disk[dir] else [] }

  function VisitsIn(disk: Disk, dir: string, list: seq<Entry>, dirpat: string, tail: string, budget: nat): nat
    decreases budget, |tail|, 1 + |list|
  {
    if list == [] then 0
    else
      (if Enterable(list[0]) && Glob.Accepts(dirpat, list[0].name)
       then 1 + Visits(disk, Sub(dir, list[0].name), tail, budget) else 0)
      + VisitsIn(disk, dir, list[1..], dirpat, tail, budget)
  }

  lemma VisitsSplit(disk: Disk, dir: string, pat: string, comp: string, rest: string, budget: nat)
    requires Splits(pat, comp, rest)
    ensures Visits(disk, dir, pat, budget)
         == if comp == "**" then
              Visits(disk, dir, rest, budget)
              + if budget > 0 then VisitsIn(disk, dir, Listing(disk, dir), "*", pat, budget - 1) else 0
            else if comp == "." then Visits(disk, dir, rest, budget)
            else if Wild(comp) then VisitsIn(disk, dir, Listing(disk, dir), comp, rest, budget)
            else Visits(disk, Sub(dir, comp), rest, budget)
  {
    hide VisitsIn;
  }

  lemma VisitsStep(disk: Disk, dir: string, list: seq<Entry>, i: nat, dirpat: string, tail: string, budget: nat)
    requires i < |list|
    ensures VisitsIn(disk, dir, list[i..], dirpat, tail, budget)
         == (if Enterable(list[i]) && Glob.Accepts(dirpat, list[i].name)
             then 1 + Visits(disk, Sub(dir, list[i].name), tail, budget) else 0)
            + VisitsIn(disk, dir, list[i + 1..], dirpat, tail, budget)
  {
    hide Visits, Glob.Accepts;
    assert list[i..][0] == list[i] && list[i..][1..] == list[i + 1..];
  }

  lemma NoVisits(disk: Disk, dir: string, dirpat: string, tail: string, budget: nat)
    ensures VisitsIn(disk, dir, [], dirpat, tail, budget) == 0
  {}

  /** The same over all passes with budgets below `n`. */
  function PassVisits(disk: Disk, dir: string, pat: string, n: nat): nat {
    if n == 0 then 0 else PassVisits(disk, dir, pat, n - 1) + Visits(disk, dir, pat, n - 1)
  }

  lemma {:induction false} PassesGrow(disk: Disk, dir: string, pat: string, m: nat, n: nat)
    requires m <= n
    ensures PassVisits(disk, dir, pat, m) <= PassVisits(disk, dir, pat, n)
    decreases n
  {
    hide Visits;
    if m < n {
      PassesGrow(disk, dir, pat, m, n - 1);
    }
  }

  // ---- the search

  /** One scan: the static counters and flags, and the buffer the path goes to. */
  class Scan {
    const disk: Disk
    /** `GetFileAttributes`: which full paths exist, and whether they are folders. */
    const attrs: map<string, bool>
    /** The file system's own matching of a last component. */
    const named: (string, string) -> bool

    /** Which looks at `scan_abort` find it set, the first being number 0. */
    const aborts: nat -> bool

    var scanned: nat
    var capped: bool
    /** Some look so far has found the flag set. */
    var aborted: bool
    var looks: nat
    var found: string
    /** Folders gone into by enumeration since the scan began. */
    ghost var entered: nat

    /** The abort flag is raised by nobody here and cleared by nobody. */
    ghost predicate AbortFits()
      reads this`aborted, this`looks
    {
      aborted <==> exists k :: 0 <= k < looks && aborts(k)
    }

    ghost predicate Valid()
      reads this
    {
      && AbortFits()
      && entered <= FW_MAX_DIRS && entered <= scanned
      && (scanned <= FW_MAX_DIRS ==> entered == scanned)
      && (capped ==> scanned > FW_MAX_DIRS)
    }

    /** The listing of `dir` has been searched without truncation. */
    ghost predicate Whole()
      reads this
    {
      !capped && !aborted
    }

    constructor (disk: Disk, attrs: map<string, bool>, named: (string, string) -> bool, aborts: nat -> bool)
      ensures Valid() && this.disk == disk && this.attrs == attrs && this.named == named && this.aborts == aborts
      ensures looks == 0
    {
      this.disk, this.attrs, this.named, this.aborts := disk, attrs, named, aborts;
      scanned, capped, aborted, looks, found, entered := 0, false, false, 0, "", 0;
    }

    /** Reading `scan_abort`, which another thread may set at any moment and nobody clears. */
    method Aborting() returns (r: bool)
      requires AbortFits()
      modifies this`aborted, this`looks
      ensures AbortFits() && looks == old(looks) + 1
      ensures r == aborted && aborted == (old(aborted) || aborts(old(looks)))
    {
      if aborts(looks) { aborted := true; }
      looks := looks + 1;
      return aborted;
    }

    /** The last component: the first file listed under a fitting name. */
    method MatchFile(dir: string, pat: string) returns (hit: bool)
      modifies this`found
      ensures hit <==> exists x, path :: Matches(disk, named, dir, Pattern([], pat), x, path)
      ensures hit ==> Matches(disk, named, dir, Pattern([], pat), [], found)
      ensures hit ==> FirstIn(disk, named, dir, pat, found)
    {
      var p := Pattern([], pat);
      hit := false;
      if dir !in disk { return false; }
      var list := disk[dir];
      var i := 0;
      while !hit && i < |list|
        invariant 0 <= i <= |list|
        invariant hit ==> Matches(disk, named, dir, p, [], found)
        invariant hit ==> 0 < i && FirstFile(named, list, pat, i - 1) && found == dir + list[i - 1].name
        invariant !hit ==> forall k :: 0 <= k < i ==> list[k].isDir || !named(pat, list[k].name)
      {
        if !list[i].isDir && named(pat, list[i].name) {
          found := dir + list[i].name;
          assert Listed(disk, dir, list[i]);
          hit := true;
        }
        i := i + 1;
      }
      if hit {
        assert Matches(disk, named, dir, p, [], found);
      }
    }

    /** Into every subfolder whose name matches, until the tail is found below one. */
    method Descend(dir: string, dirpat: string, tail: string, budget: nat)
        returns (hit: bool, ghost name: string, ghost x: Expansion)
      requires Valid()
      modifies this
      ensures Valid() && (old(aborted) ==> aborted)
      ensures scanned <= old(scanned) + VisitsIn(disk, dir, Listing(disk, dir), dirpat, tail, budget)
      ensures old(capped) ==> capped && !hit
      ensures hit ==> !capped && CanEnter(disk, dir, name) && Glob.Accepts(dirpat, name)
      ensures hit ==> Hit(disk, named, Sub(dir, name), tail, budget, x, found)
      ensures hit ==> FirstListed(disk, named, Sub(dir, name), tail, x, found)
      ensures !hit && Whole() ==>
                forall n :: CanEnter(disk, dir, n) && Glob.Accepts(dirpat, n) ==>
                    Nothing(disk, named, Sub(dir, n), tail, budget)
      decreases budget, |tail|, 3
    {
      hide Hit, Nothing, Glob.Accepts, FirstListed, Visits, VisitsIn, AbortFits;
      hit, name, x := false, "", [];
      if dir !in disk { return; }
      var list := disk[dir];
      var i := 0;
      assert list[0..] == list;
      while !hit && i < |list|
        invariant 0 <= i <= |list| && Valid() && (old(aborted) ==> aborted) && (old(capped) ==> capped && !hit)
        invariant scanned + VisitsIn(disk, dir, list[i..], dirpat, tail, budget)
               <= old(scanned) + VisitsIn(disk, dir, list, dirpat, tail, budget)
        invariant hit ==> !capped && CanEnter(disk, dir, name) && Glob.Accepts(dirpat, name)
        invariant hit ==> Hit(disk, named, Sub(dir, name), tail, budget, x, found)
        invariant hit ==> FirstListed(disk, named, Sub(dir, name), tail, x, found)
        invariant !hit && Whole() ==>
                    forall k :: 0 <= k < i && Enterable(list[k]) && Glob.Accepts(dirpat, list[k].name)
                           ==> Nothing(disk, named, Sub(dir, list[k].name), tail, budget)
      {
        var fd := list[i];
        VisitsStep(disk, dir, list, i, dirpat, tail, budget);
        i := i + 1;
        if !fd.isDir { continue; }
        if fd.isReparse { continue; }
        if fd.name == "." { continue; }
        if fd.name == ".." { continue; }
        var fits := Glob.MatchComponent(dirpat, fd.name);
        if !fits { continue; }
        var stop := Aborting();
        if stop { break; }
        scanned := scanned + 1;
        if scanned > FW_MAX_DIRS {
          capped := true;
          break;
        }
        entered := entered + 1;
        hit, x := Search(Sub(dir, fd.name), tail, budget);
        name := fd.name;
        assert Listed(disk, dir, fd) && Enterable(fd);
      }
    }

    method Search(dir: string, pat: string, budget: nat) returns (hit: bool, ghost x: Expansion)
      requires Valid() && !capped
      modifies this
      ensures Valid() && (old(aborted) ==> aborted)
      ensures scanned <= old(scanned) + Visits(disk, dir, pat, budget)
      ensures hit ==> !capped && Hit(disk, named, dir, pat, budget, x, found)
      ensures hit ==> FirstListed(disk, named, dir, pat, x, found)
      ensures !hit && Whole() ==> Nothing(disk, named, dir, pat, budget)
      decreases budget, |pat|, 2
    {
      x := [];
      var stop := Aborting();
      if stop { return false, []; }
      var slash := Find(pat, '\\');
      if slash == |pat| {
        hit := MatchFile(dir, pat);
        assert Components(pat) == Some(Pattern([], pat));
        forall y, path | Hit(disk, named, dir, pat, budget, y, path) ensures hit {
          assert Matches(disk, named, dir, Pattern([], pat), y, path);
        }
        return hit, [];
      }
      if slash >= MAX_PATH { return false, []; }
      var comp := pat[..slash];
      var rest := SkipSlashes(pat[slash + 1..]);
      if rest == "" { return false, []; }

      assert Splits(pat, comp, rest);
      VisitsSplit(disk, dir, pat, comp, rest, budget);
      hide Hit, Nothing, Splits, Components, Glob.Accepts, FirstListed, Visits, VisitsIn, AbortFits;
      if comp == "**" {
        hit, x := SearchDeep(dir, pat, rest, budget);
        return;
      }
      if comp == "." {
        hit, x := Search(dir, rest, budget);
        if hit {
          HitStep(disk, named, dir, pat, comp, rest, [], budget, budget, x, found);
          FirstStep(disk, named, dir, pat, comp, rest, [], x, found);
        } else if Whole() {
          PlainNothing(disk, named, dir, pat, comp, rest, budget);
        }
        return hit, [[]] + x;
      }
      if Wild(comp) {
        ghost var name: string;
        hit, name, x := Descend(dir, comp, rest, budget);
        if hit {
          HitStep(disk, named, dir, pat, comp, rest, [name], budget, budget, x, found);
          FirstStep(disk, named, dir, pat, comp, rest, [name], x, found);
        } else if Whole() {
          WildNothing(disk, named, dir, pat, comp, rest, budget);
        }
        return hit, [[name]] + x;
      }
      hit, x := Search(Sub(dir, comp), rest, budget);
      if hit {
        HitStep(disk, named, dir, pat, comp, rest, [comp], budget, budget, x, found);
        FirstStep(disk, named, dir, pat, comp, rest, [comp], x, found);
      } else if Whole() {
        PlainNothing(disk, named, dir, pat, comp, rest, budget);
      }
      return hit, [[comp]] + x;
    }

    /** A `**`: no folder, or one and `**` again, at the price of one level. */
    method SearchDeep(dir: string, pat: string, rest: string, budget: nat) returns (hit: bool, ghost x: Expansion)
      requires Valid() && !capped && Splits(pat, "**", rest)
      modifies this
      ensures Valid() && (old(aborted) ==> aborted)
      ensures scanned <= old(scanned) + Visits(disk, dir, pat, budget)
      ensures hit ==> !capped && Hit(disk, named, dir, pat, budget, x, found)
      ensures hit ==> FirstListed(disk, named, dir, pat, x, found)
      ensures !hit && Whole() ==> Nothing(disk, named, dir, pat, budget)
      decreases budget, |pat|, 1
    {
      VisitsSplit(disk, dir, pat, "**", rest, budget);
      hide Hit, Nothing, Components, Glob.Accepts, FirstListed, Visits, VisitsIn, AbortFits;
      hit, x := Search(dir, rest, budget);
      if hit {
        HitStep(disk, named, dir, pat, "**", rest, [], budget, budget, x, found);
        FirstStep(disk, named, dir, pat, "**", rest, [], x, found);
        return true, [[]] + x;
      }
      if budget == 0 {
        if Whole() { DeepNothing(disk, named, dir, pat, rest, budget); }
        return false, [];
      }
      ghost var name: string;
      hit, name, x := Descend(dir, "*", pat, budget - 1);
      if hit {
        DeepHit(disk, named, dir, pat, rest, name, budget, x, found);
        DeepFirst(disk, named, dir, pat, name, x, found);
        return true, [[name] + x[0]] + x[1..];
      }
      if Whole() { DeepNothing(disk, named, dir, pat, rest, budget); }
      return false, [];
    }

    /** The passes of `find_match` below the literal base. */
    method FindBelow(base: string, tail: string, depth: nat) returns (hit: bool, ghost x: Expansion)
      requires Valid() && scanned == 0 && !capped
      modifies this
      ensures Valid() && (old(aborted) ==> aborted)
      ensures capped ==> !hit && PassVisits(disk, base, tail, depth + 1) > FW_MAX_DIRS
      ensures hit ==> Hit(disk, named, base, tail, depth, x, found) && FirstListed(disk, named, base, tail, x, found)
      ensures hit ==> forall y, path, b :: Hit(disk, named, base, tail, b, y, path) ==> Levels(x) <= Levels(y)
      ensures !hit && Whole() ==> Nothing(disk, named, base, tail, depth)
    {
      hide Hit, Nothing, Levels, FirstListed, Visits, AbortFits;
      if !HasTwoStars(tail) {
        hit, x := Search(base, tail, 0);
        PassesGrow(disk, base, tail, 1, depth + 1);
        assert PassVisits(disk, base, tail, 1) == Visits(disk, base, tail, 0);
        ShallowExact(disk, named, base, tail, depth);
        if hit {
          HitRaise(disk, named, base, tail, 0, depth, x, found);
          Shallowest(disk, named, base, tail, 0, x, found);
        }
        return hit, x;
      }
      var budget := 0;
      while budget <= depth
        invariant 0 <= budget <= depth + 1 && Valid() && !capped && (old(aborted) ==> aborted)
        invariant scanned <= PassVisits(disk, base, tail, budget)
        invariant budget > 0 ==> Nothing(disk, named, base, tail, budget - 1)
        decreases depth + 1 - budget
      {
        hit, x := Search(base, tail, budget);
        PassesGrow(disk, base, tail, budget + 1, depth + 1);
        if hit {
          HitRaise(disk, named, base, tail, budget, depth, x, found);
          Shallowest(disk, named, base, tail, budget, x, found);
          return true, x;
        }
        if capped { break; }
        var stop := Aborting();
        if stop { break; }
        budget := budget + 1;
      }
      return false, [];
    }

    /** `find_match`: 0 or the path of a match with the fewest folder levels. */
    method FindMatch(pattern: string, depth: nat) returns (hit: bool, ghost x: Expansion)
      requires AbortFits()
      modifies this
      ensures (old(aborted) ==> aborted) && (!Wild(pattern) ==> aborted == old(aborted))
      ensures capped ==>
                var base := BaseLength(pattern, FirstWild(pattern));
                PassVisits(disk, pattern[..base], pattern[base..], depth + 1) > FW_MAX_DIRS
      ensures Valid() && entered <= FW_MAX_DIRS
      ensures hit ==> !capped
      ensures !Wild(pattern) ==> (hit <==> pattern in attrs && !attrs[pattern]) && (hit ==> found == pattern)
      ensures Wild(pattern) && hit ==>
                var base := BaseLength(pattern, FirstWild(pattern));
                && Hit(disk, named, pattern[..base], pattern[base..], depth, x, found)
                && forall y, path, b :: Hit(disk, named, pattern[..base], pattern[base..], b, y, path) ==>
                    Levels(x) <= Levels(y)
      ensures Wild(pattern) && !hit && Whole() ==>
                var base := BaseLength(pattern, FirstWild(pattern));
                Nothing(disk, named, pattern[..base], pattern[base..], depth)
      ensures Wild(pattern) ==>
                var base := BaseLength(pattern, FirstWild(pattern));
                && (hit ==> Wanted(disk, named, pattern[..base], pattern[base..], depth, x, found))
                && (hit ==> FirstListed(disk, named, pattern[..base], pattern[base..], x, found))
                && (FairPattern(pattern[base..]) && hit ==>
                      Least(disk, named, pattern[..base], pattern[base..], Levels(x)))
                && (FairPattern(pattern[base..]) && !hit && Whole() ==>
                      Unmet(disk, named, pattern[..base], pattern[base..], depth))
    {
      hide Hit, Nothing, Components, Levels, Wanted, FairPattern, Unmet, FirstListed, PassVisits, AbortFits, Least;
      scanned, capped, entered, x := 0, false, 0, [];
      var wild := FirstWild(pattern);
      if wild == |pattern| {
        if pattern !in attrs { return false, []; }
        if attrs[pattern] { return false, []; }
        found := pattern;
        return true, [];
      }
      var cut := wild;
      while cut > 0 && pattern[cut - 1] != '\\'
        invariant 0 <= cut <= wild && BaseLength(pattern, cut) == BaseLength(pattern, wild)
      {
        cut := cut - 1;
      }
      var base, tail := pattern[..cut], pattern[cut..];
      HitIsWanted(disk, named, base, tail);
      NothingWanted(disk, named, base, tail, depth);
      LeastWanted(disk, named, base, tail);
      hit, x := FindBelow(base, tail, depth);
    }
  }
}
