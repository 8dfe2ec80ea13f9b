/** Plain text to Atlassian Document Format and back, and the --once check that relies on it. */
module JiraComment {
  import opened Text

  // ---- words

  /** `text.split()`, with `word` read so far. */
  function Scan(s: string, word: string): seq<string>
    decreases |s|
  {
    var done := if word != "" then [word] else [];
    if s == "" then done
    else if IsSpace(s[0]) then done + Scan(s[1..], "")
    else Scan(s[1..], word + [s[0]])
  }

  function Words(s: string): seq<string> { Scan(s, "") }

  /** `" ".join(text.split())` */
  function Normalise(s: string): string { Join(Words(s), " ") }

  function WordsAll(parts: seq<string>): seq<string> {
    if parts == [] then [] else Words(parts[0]) + WordsAll(parts[1..])
  }

  lemma {:induction false} ScanBlank(s: string)
    requires Blank(s)
    ensures Words(s) == []
  {
    if s != "" {
      ScanBlank(s[1..]);
    }
  }

  /** White space ends the word before it; more of it changes nothing. */
  lemma {:induction false} ScanGap(gap: string, b: string, word: string)
    requires gap != "" && Blank(gap)
    ensures Scan(gap + b, word) == (if word != "" then [word] else []) + Words(b)
    decreases |gap|
  {
    assert (gap + b)[1..] == gap[1..] + b;
    if |gap| > 1 {
      ScanGap(gap[1..], b, "");
      assert [] + Words(b) == Words(b);
    } else {
      assert gap[1..] + b == b;
    }
  }

  lemma {:induction false} ScanAcross(a: string, gap: string, b: string, word: string)
    requires gap != "" && Blank(gap)
    ensures Scan(a + gap + b, word) == Scan(a, word) + Words(b)
    decreases |a|
  {
    if a == "" {
      assert a + gap + b == gap + b;
      ScanGap(gap, b, word);
    } else {
      assert (a + gap + b)[1..] == a[1..] + gap + b;
      if IsSpace(a[0]) {
        ScanAcross(a[1..], gap, b, "");
        var done := if word != "" then [word] else [];
        assert (done + Scan(a[1..], "")) + Words(b) == done + (Scan(a[1..], "") + Words(b));
      } else {
        ScanAcross(a[1..], gap, b, word + [a[0]]);
      }
    }
  }

  /** White space between two texts keeps their words apart, whatever it is made of. */
  lemma WordsAcross(a: string, gap: string, b: string)
    requires gap != "" && Blank(gap)
    ensures Words(a + gap + b) == Words(a) + Words(b)
  {
    ScanAcross(a, gap, b, "");
  }

  lemma {:induction false} ScanCrLf(s: string, word: string)
    ensures Scan(ReplaceCrLf(s), word) == Scan(s, word)
    decreases |s|
  {
    if s == "" {
    } else if |s| >= 2 && s[0] == '\r' && s[1] == '\n' {
      ScanCrLf(s[2..], "");
      var r := ['\n'] + ReplaceCrLf(s[2..]);
      assert r[1..] == ReplaceCrLf(s[2..]) && s[1..][1..] == s[2..];
      assert Scan(s[1..], "") == [] + Scan(s[2..], "");
    } else {
      var r := [s[0]] + ReplaceCrLf(s[1..]);
      assert r[1..] == ReplaceCrLf(s[1..]);
      ScanCrLf(s[1..], if IsSpace(s[0]) then "" else word + [s[0]]);
    }
  }

  lemma {:induction false} WordsOfJoin(parts: seq<string>, sep: string)
    requires sep != "" && Blank(sep)
    ensures Words(Join(parts, sep)) == WordsAll(parts)
  {
    hide Scan;
    if parts == [] {
      ScanBlank("");
    } else if |parts| == 1 {
      assert parts[1..] == [];
      assert Words(parts[0]) + [] == Words(parts[0]);
    } else {
      WordsOfJoin(parts[1..], sep);
      WordsAcross(parts[0], sep, Join(parts[1..], sep));
    }
  }

  lemma {:induction false} WordsAllConcat(a: seq<string>, b: seq<string>)
    ensures WordsAll(a + b) == WordsAll(a) + WordsAll(b)
  {
    hide Scan;
    if a == [] {
      assert a + b == b;
    } else {
      assert (a + b)[1..] == a[1..] + b;
      WordsAllConcat(a[1..], b);
      assert Words(a[0]) + (WordsAll(a[1..]) + WordsAll(b)) == (Words(a[0]) + WordsAll(a[1..])) + WordsAll(b);
    }
  }

  // ---- paragraphs

  /** `text.split("\n\n")` */
  function Paragraphs(s: string): (r: seq<string>)
    ensures |r| > 0
    decreases |s|
  {
    if s == "" then [""]
    else if |s| > 1 && s[0] == '\n' && s[1] == '\n' then [""] + Paragraphs(s[2..])
    else
      var rest := Paragraphs(s[1..]);
      [[s[0]] + rest[0]] + rest[1..]
  }

  lemma {:induction false} JoinParagraphs(s: string)
    ensures Join(Paragraphs(s), "\n\n") == s
    decreases |s|
  {
    if s == "" {
    } else if |s| > 1 && s[0] == '\n' && s[1] == '\n' {
      JoinParagraphs(s[2..]);
      var rest := Paragraphs(s[2..]);
      assert ([""] + rest)[1..] == rest;
      assert "" + "\n\n" + s[2..] == s;
    } else {
      JoinParagraphs(s[1..]);
      var rest := Paragraphs(s[1..]);
      var all := [[s[0]] + rest[0]] + rest[1..];
      assert all[1..] == rest[1..];
      JoinFirst(s[0], rest, "\n\n");
      assert s == [s[0]] + s[1..];
    }
  }

  lemma JoinFirst(c: char, parts: seq<string>, sep: string)
    requires parts != []
    ensures Join([[c] + parts[0]] + parts[1..], sep) == [c] + Join(parts, sep)
  {
    var all := [[c] + parts[0]] + parts[1..];
    assert all[1..] == parts[1..];
    if |parts| > 1 {
      assert ([c] + parts[0]) + sep + Join(parts[1..], sep) == [c] + (parts[0] + sep + Join(parts[1..], sep));
    }
  }

  // ---- documents

  /** A JSON value of a document; `Other` is neither text, list nor object. */
  datatype Node =
    | Str(s: string)
    | List(items: seq<Node>)
    | Obj(kind: string, text: string, content: Node)
    | Other

  const NOTHING := List([])

  const HARD_BREAK := Obj("hardBreak", "", NOTHING)

  function DropBlankEnd(lines: seq<string>): seq<string> {
    if lines != [] && Blank(lines[|lines| - 1]) then DropBlankEnd(lines[..|lines| - 1]) else lines
  }

  function DropBlankStart(lines: seq<string>): seq<string> {
    if lines != [] && Blank(lines[0]) then DropBlankStart(lines[1..]) else lines
  }

  /** A line's nodes, a break before each line but the first. */
  function LineNodes(line: string, first: bool): seq<Node> {
    (if first then [] else [HARD_BREAK]) + if line != "" then [Obj("text", line, NOTHING)] else []
  }

  function Nodes(lines: seq<string>, first: bool): seq<Node> {
    if lines == [] then [] else LineNodes(lines[0], first) + Nodes(lines[1..], false)
  }

  function Trimmed(para: string): seq<string> { DropBlankStart(DropBlankEnd(Split(para, '\n'))) }

  function Content(paras: seq<string>): seq<Node> {
    if paras == [] then []
    else
      var lines := Trimmed(paras[0]);
      (if lines == [] then [] else [Obj("paragraph", "", List(Nodes(lines, true)))]) + Content(paras[1..])
  }

  function Document(content: seq<Node>): Node {
    Obj("doc", "", List(if content == [] then [Obj("paragraph", "", NOTHING)] else content))
  }

  /** What `text_to_adf` builds. */
  function Adf(text: string): Node { Document(Content(Paragraphs(ReplaceCrLf(text)))) }

  /** `text_to_adf` */
  method TextToAdf(text: string) returns (doc: Node)
    ensures doc == Adf(text)
  {
    hide Paragraphs, ReplaceCrLf, Trimmed, Nodes;
    var paragraphs := Paragraphs(ReplaceCrLf(text));
    var content: seq<Node> := [];
    for p := 0 to |paragraphs|
      invariant Content(paragraphs) == content + Content(paragraphs[p..])
    {
      assert paragraphs[p..][1..] == paragraphs[p + 1..];
      var lines := TrimLines(paragraphs[p]);
      if lines == [] { continue; }
      var nodes := ParagraphNodes(lines);
      content := content + [Obj("paragraph", "", List(nodes))];
    }
    assert Content(paragraphs) == content by { assert content + [] == content; }
    assert Adf(text) == Document(content);
    if content == [] {
      content := [Obj("paragraph", "", NOTHING)];
    }
    doc := Obj("doc", "", List(content));
  }

  /** Blank lines popped off both ends of a paragraph. */
  method TrimLines(para: string) returns (lines: seq<string>)
    ensures lines == Trimmed(para)
  {
    hide Split;
    lines := Split(para, '\n');
    while lines != [] && Blank(lines[|lines| - 1])
      invariant DropBlankEnd(lines) == DropBlankEnd(Split(para, '\n'))
    {
      lines := lines[..|lines| - 1];
    }
    ghost var kept := lines;
    while lines != [] && Blank(lines[0])
      invariant DropBlankStart(lines) == DropBlankStart(kept)
    {
      lines := lines[1..];
    }
  }

  method ParagraphNodes(lines: seq<string>) returns (nodes: seq<Node>)
    ensures nodes == Nodes(lines, true)
  {
    nodes := [];
    for i := 0 to |lines|
      invariant Nodes(lines, true) == nodes + Nodes(lines[i..], i == 0)
    {
      assert lines[i..][1..] == lines[i + 1..];
      ghost var sofar, rest := nodes, Nodes(lines[i + 1..], false);
      assert (sofar + LineNodes(lines[i], i == 0)) + rest == sofar + (LineNodes(lines[i], i == 0) + rest);
      if i != 0 {
        nodes := nodes + [HARD_BREAK];
      }
      if lines[i] != "" {
        nodes := nodes + [Obj("text", lines[i], NOTHING)];
      }
      assert nodes == sofar + LineNodes(lines[i], i == 0);
    }
  }

  /** `adf_to_text` */
  function Flat(node: Node): string
    decreases node, 0
  {
    match node
    case Str(s) => s
    case List(items) => FlatAll(items)
    case Obj(kind, text, content) =>
      if kind == "text" then text
      else if kind == "hardBreak" then "\n"
      else Flat(content) + if kind == "paragraph" then "\n\n" else ""
    case Other => ""
  }

  function FlatAll(items: seq<Node>): string
    decreases items, 1
  {
    if items == [] then "" else Flat(items[0]) + FlatAll(items[1..])
  }

  lemma {:induction false} FlatConcat(a: seq<Node>, b: seq<Node>)
    ensures FlatAll(a + b) == FlatAll(a) + FlatAll(b)
  {
    hide Flat;
    if a == [] {
      assert a + b == b;
    } else {
      assert (a + b)[1..] == a[1..] + b;
      FlatConcat(a[1..], b);
      assert (Flat(a[0]) + FlatAll(a[1..])) + FlatAll(b) == Flat(a[0]) + (FlatAll(a[1..]) + FlatAll(b));
    }
  }

  lemma FlatOne(n: Node)
    ensures FlatAll([n]) == Flat(n)
  {
    assert FlatAll([]) == "";
    assert [n][1..] == [];
    assert Flat(n) + "" == Flat(n);
  }

  lemma FlatKinds(line: string, content: Node, items: seq<Node>)
    ensures Flat(Obj("text", line, content)) == line
    ensures Flat(HARD_BREAK) == "\n"
    ensures Flat(Obj("paragraph", line, content)) == Flat(content) + "\n\n"
    ensures Flat(Obj("doc", line, content)) == Flat(content)
    ensures Flat(List(items)) == FlatAll(items)
  {
    assert |"doc"| == 3 && "paragraph"[0] == 'p';
    assert Flat(content) + "" == Flat(content);
  }

  lemma FlatLine(line: string, first: bool)
    ensures FlatAll(LineNodes(line, first)) == (if first then "" else "\n") + line
  {
    hide Flat, FlatAll;
    var t := Obj("text", line, NOTHING);
    var pre: seq<Node> := if first then [] else [HARD_BREAK];
    var post := if line != "" then [t] else [];
    FlatConcat(pre, post);
    FlatKinds(line, NOTHING, []);
    FlatOne(HARD_BREAK);
    FlatOne(t);
    FlatNothing();
  }

  /** A paragraph's nodes flatten to its lines, one break between each two. */
  lemma {:induction false} FlatNodes(lines: seq<string>, first: bool)
    requires lines != []
    ensures FlatAll(Nodes(lines, first)) == (if first then "" else "\n") + Join(lines, "\n")
  {
    hide Flat, FlatAll, LineNodes;
    var rest := lines[1..];
    FlatLine(lines[0], first);
    FlatConcat(LineNodes(lines[0], first), Nodes(rest, false));
    var pre := if first then "" else "\n";
    if rest == [] {
      assert Nodes(rest, false) == [] && FlatAll([]) == "" by { FlatNothing(); }
      assert Join(lines, "\n") == lines[0];
      assert (pre + lines[0]) + "" == pre + lines[0];
    } else {
      FlatNodes(rest, false);
      assert Join(lines, "\n") == lines[0] + "\n" + Join(rest, "\n");
      assert (pre + lines[0]) + ("\n" + Join(rest, "\n")) == pre + (lines[0] + "\n" + Join(rest, "\n"));
    }
  }

  lemma FlatNothing()
    ensures FlatAll([]) == ""
  {}

  // ---- the words survive

  lemma {:induction false} TrimEndWords(lines: seq<string>)
    ensures WordsAll(DropBlankEnd(lines)) == WordsAll(lines)
  {
    hide Scan, Blank;
    if lines != [] && Blank(lines[|lines| - 1]) {
      var front, last := lines[..|lines| - 1], lines[|lines| - 1];
      TrimEndWords(front);
      assert lines == front + [last];
      WordsAllConcat(front, [last]);
      ScanBlank(last);
      assert [last][1..] == [] && WordsAll([last]) == [];
    }
  }

  lemma {:induction false} TrimStartWords(lines: seq<string>)
    ensures WordsAll(DropBlankStart(lines)) == WordsAll(lines)
  {
    hide Scan, Blank;
    if lines != [] && Blank(lines[0]) {
      TrimStartWords(lines[1..]);
      ScanBlank(lines[0]);
    }
  }

  lemma TrimmedWords(para: string)
    ensures WordsAll(Trimmed(para)) == Words(para)
  {
    hide Scan, DropBlankEnd, DropBlankStart, WordsAll;
    var lines := Split(para, '\n');
    TrimStartWords(DropBlankEnd(lines));
    TrimEndWords(lines);
    JoinSplit(para, '\n');
    assert Blank("\n");
    WordsOfJoin(lines, "\n");
  }

  lemma ParagraphText(lines: seq<string>)
    requires lines != []
    ensures Flat(Obj("paragraph", "", List(Nodes(lines, true)))) == Join(lines, "\n") + "\n\n"
  {
    hide FlatAll, Flat, Nodes;
    FlatNodes(lines, true);
    FlatKinds("", List(Nodes(lines, true)), Nodes(lines, true));
    assert "" + Join(lines, "\n") == Join(lines, "\n");
  }

  lemma {:induction false} ContentWords(paras: seq<string>)
    ensures Words(FlatAll(Content(paras))) == WordsAll(paras)
  {
    hide Scan, Trimmed, Join, Flat, Nodes;
    if paras == [] {
      ScanBlank("");
    } else {
      var lines, rest := Trimmed(paras[0]), paras[1..];
      TrimmedWords(paras[0]);
      ContentWords(rest);
      if lines == [] {
        assert [] + Content(rest) == Content(rest);
        assert [] + WordsAll(rest) == WordsAll(rest);
      } else {
        var p := Obj("paragraph", "", List(Nodes(lines, true)));
        assert ([p] + Content(rest))[1..] == Content(rest);
        ParagraphText(lines);
        assert Blank("\n") && Blank("\n\n");
        WordsOfJoin(lines, "\n");
        WordsAcross(Join(lines, "\n"), "\n\n", FlatAll(Content(rest)));
      }
    }
  }

  lemma DocumentText(content: seq<Node>)
    ensures Flat(Document(content)) == if content == [] then "\n\n" else FlatAll(content)
  {
    hide Flat, FlatAll;
    var p := Obj("paragraph", "", NOTHING);
    var items := if content == [] then [p] else content;
    FlatKinds("", List(items), items);
    FlatKinds("", NOTHING, []);
    FlatOne(p);
    FlatNothing();
    assert "" + "\n\n" == "\n\n";
  }

  /** Text to document and back keeps the words, for every text. */
  lemma WordsSurvive(text: string)
    ensures Words(Flat(Adf(text))) == Words(text)
  {
    hide Scan, Flat, FlatAll, Content, Paragraphs, ReplaceCrLf, Document;
    var s := ReplaceCrLf(text);
    ScanCrLf(text, "");
    JoinParagraphs(s);
    assert Blank("\n\n");
    WordsOfJoin(Paragraphs(s), "\n\n");
    var content := Content(Paragraphs(s));
    ContentWords(Paragraphs(s));
    DocumentText(content);
    if content == [] {
      assert FlatAll([]) == "" by { FlatNothing(); }
      ScanBlank("");
      ScanBlank("\n\n");
    }
  }

  lemma NormalSurvives(text: string)
    ensures Normalise(Flat(Adf(text))) == Normalise(text)
  {
    WordsSurvive(text);
  }

  // ---- --once

  function Texts(comments: seq<Node>): seq<string> {
    if comments == [] then [] else [Flat(comments[0])] + Texts(comments[1..])
  }

  /** `existing_comment_texts`: page by page, however many comments the server puts on a page. */
  method ExistingCommentTexts(comments: seq<Node>) returns (texts: seq<string>)
    ensures texts == Texts(comments)
  {
    hide Flat;
    texts := [];
    var startAt := 0;
    assert comments[0..] == comments;
    while true
      invariant 0 <= startAt <= |comments|
      invariant texts + Texts(comments[startAt..]) == Texts(comments)
      decreases |comments| - startAt
    {
      var page := [];
      if startAt < |comments| {
        var size: nat :| 0 < size <= 100 && startAt + size <= |comments|;
        page := comments[startAt..startAt + size];
      }
      ghost var before := texts;
      for k := 0 to |page|
        invariant texts == before + Texts(page[..k])
      {
        TextsMore(page, k);
        texts := texts + [Flat(page[k])];
      }
      assert page[..|page|] == page;
      TextsSplit(comments[startAt..], |page|);
      assert comments[startAt..][..|page|] == page && comments[startAt..][|page|..] == comments[startAt + |page|..];
      assert before + (Texts(page) + Texts(comments[startAt + |page|..]))
          == (before + Texts(page)) + Texts(comments[startAt + |page|..]);
      startAt := startAt + |page|;
      if page == [] || startAt >= |comments| {
        assert comments[startAt..] == [] && texts + [] == texts;
        return;
      }
    }
  }

  lemma {:induction false} TextsSplit(comments: seq<Node>, n: nat)
    requires n <= |comments|
    ensures Texts(comments) == Texts(comments[..n]) + Texts(comments[n..])
  {
    hide Flat;
    if n == 0 {
      assert comments[..0] == [] && comments[0..] == comments;
    } else {
      TextsSplit(comments[1..], n - 1);
      var front, back := comments[..n], comments[n..];
      assert front[1..] == comments[1..][..n - 1] && back == comments[1..][n - 1..];
      assert [Flat(comments[0])] + (Texts(front[1..]) + Texts(back))
          == ([Flat(comments[0])] + Texts(front[1..])) + Texts(back);
    }
  }

  lemma TextsMore(page: seq<Node>, k: nat)
    requires k < |page|
    ensures Texts(page[..k + 1]) == Texts(page[..k]) + [Flat(page[k])]
  {
    hide Flat;
    TextsSplit(page[..k + 1], k);
    assert page[..k + 1][..k] == page[..k] && page[..k + 1][k..] == [page[k]];
    assert [page[k]][1..] == [];
  }

  lemma {:induction false} TextsAt(comments: seq<Node>, i: nat)
    requires i < |comments|
    ensures |Texts(comments)| == |comments| && Texts(comments)[i] == Flat(comments[i])
    decreases |comments|
  {
    hide Flat;
    if i > 0 {
      TextsAt(comments[1..], i - 1);
    } else if |comments| > 1 {
      TextsAt(comments[1..], 0);
    } else {
      assert comments[1..] == [];
    }
  }

  /** Some comment already has these words. */
  predicate Present(comments: seq<Node>, wanted: string) {
    exists i :: 0 <= i < |comments| && Normalise(Flat(comments[i])) == wanted
  }

  /** The comments after a run with `--once`; a blank text is refused. */
  function Once(comments: seq<Node>, text: string): seq<Node> {
    if Blank(text) || Present(comments, Normalise(text)) then comments else comments + [Adf(text)]
  }

  /** `main` with `--once`, against a server that stores bodies as they are. */
  method RunOnce(comments: seq<Node>, text: string) returns (after: seq<Node>)
    ensures after == Once(comments, text)
  {
    hide Normalise, Flat, Adf;
    if Blank(text) { return comments; }
    var wanted := Normalise(text);
    var texts := ExistingCommentTexts(comments);
    TextsCount(comments);
    for i := 0 to |texts|
      invariant forall k :: 0 <= k < i ==> Normalise(Flat(comments[k])) != wanted
    {
      TextsAt(comments, i);
      if Normalise(texts[i]) == wanted {
        assert Present(comments, wanted);
        return comments;
      }
    }
    var doc := TextToAdf(text);
    return comments + [doc];
  }

  lemma TextsCount(comments: seq<Node>)
    ensures |Texts(comments)| == |comments|
  {
    if comments != [] {
      TextsAt(comments, 0);
    }
  }

  function Runs(comments: seq<Node>, texts: seq<string>): seq<Node>
    decreases |texts|
  {
    if texts == [] then comments else Runs(Once(comments, texts[0]), texts[1..])
  }

  /** The comments from `n` on have words of their own. */
  predicate AllNew(comments: seq<Node>, n: nat) {
    forall i, j :: 0 <= i < j < |comments| && n <= j ==> Normalise(Flat(comments[i])) != Normalise(Flat(comments[j]))
  }

  lemma OnceKeeps(comments: seq<Node>, n: nat, text: string)
    requires n <= |comments| && AllNew(comments, n)
    ensures var after := Once(comments, text);
            comments <= after && AllNew(after, n) && (!Blank(text) ==> Present(after, Normalise(text)))
  {
    hide Normalise, Flat, Adf, Blank;
    var after := Once(comments, text);
    NormalSurvives(text);
    if after != comments {
      assert after[|comments|] == Adf(text);
      assert forall i :: 0 <= i < |comments| ==> after[i] == comments[i];
    }
  }

  /**
    * Any sequence of runs: old comments stay, every text is there in the end, and none was added twice or beside an
    * equal one.
    */
  lemma {:induction false} NeverTwice(comments: seq<Node>, n: nat, texts: seq<string>)
    requires n <= |comments| && AllNew(comments, n)
    ensures var after := Runs(comments, texts);
            && comments <= after && AllNew(after, n)
            && forall k :: 0 <= k < |texts| && !Blank(texts[k]) ==> Present(after, Normalise(texts[k]))
    decreases |texts|
  {
    hide Normalise, Flat, Once, AllNew, Blank;
    if texts != [] {
      var next := Once(comments, texts[0]);
      OnceKeeps(comments, n, texts[0]);
      NeverTwice(next, n, texts[1..]);
      var after := Runs(comments, texts);
      forall k | 0 <= k < |texts| && !Blank(texts[k]) ensures Present(after, Normalise(texts[k])) {
        if k == 0 {
          var i :| 0 <= i < |next| && Normalise(Flat(next[i])) == Normalise(texts[0]);
          assert after[i] == next[i];
        } else {
          assert texts[k] == texts[1..][k - 1];
        }
      }
    }
  }

  /** Re-running one job adds at most one comment. */
  lemma {:induction false} RerunIsOnce(comments: seq<Node>, text: string, n: nat)
    requires n > 0
    ensures Runs(comments, seq(n, i => text)) == Once(comments, text)
    decreases n
  {
    hide Normalise, Flat, Adf, Blank;
    var texts := seq(n, i => text);
    var next := Once(comments, text);
    assert texts[1..] == seq(n - 1, i => text);
    assert Once(next, text) == next by {
      NormalSurvives(text);
      if next != comments {
        assert next[|comments|] == Adf(text);
      }
    }
    if n > 1 {
      RerunIsOnce(next, text, n - 1);
    } else {
      assert texts[1..] == [];
    }
  }
}
