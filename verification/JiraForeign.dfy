/** Comments from other hands: what any document flattens to, and what text keeps its very lines. */
module JiraForeign {
  import opened Text
  import opened JiraComment

  // ---- words

  /** A word by itself is one word. */
  lemma {:induction false} ScanWord(w: string, word: string)
    requires forall i :: 0 <= i < |w| ==> !IsSpace(w[i])
    ensures Scan(w, word) == if word + w == "" then [] else [word + w]
    decreases |w|
  {
    if w == "" {
      assert word + w == word;
    } else {
      ScanWord(w[1..], word + [w[0]]);
      assert (word + [w[0]]) + w[1..] == word + w;
    }
  }

  lemma WordAlone(w: string)
    requires w != "" && forall i :: 0 <= i < |w| ==> !IsSpace(w[i])
    ensures Words(w) == [w]
  {
    ScanWord(w, "");
    assert "" + w == w;
  }

  lemma {:induction false} ScanUnbroken(s: string, word: string)
    requires forall i :: 0 <= i < |word| ==> !IsSpace(word[i])
    ensures forall k :: 0 <= k < |Scan(s, word)| ==>
              Scan(s, word)[k] != "" && forall i :: 0 <= i < |Scan(s, word)[k]| ==> !IsSpace(Scan(s, word)[k][i])
    decreases |s|
  {
    if s != "" {
      if IsSpace(s[0]) {
        ScanUnbroken(s[1..], "");
      } else {
        ScanUnbroken(s[1..], word + [s[0]]);
      }
    }
  }

  /** Texts are held equal exactly when they have the same words in the same order. */
  lemma NormaliseIff(a: string, b: string)
    ensures Normalise(a) == Normalise(b) <==> Words(a) == Words(b)
  {
    hide Scan;
    if Normalise(a) == Normalise(b) {
      NormalWords(a);
      NormalWords(b);
    }
  }

  lemma NormalWords(a: string)
    ensures Words(Normalise(a)) == Words(a)
  {
    hide Scan;
    assert Blank(" ");
    WordsOfJoin(Words(a), " ");
    ScanUnbroken(a, "");
    AllAlone(Words(a));
  }

  lemma {:induction false} AllAlone(ws: seq<string>)
    requires forall k :: 0 <= k < |ws| ==> ws[k] != "" && forall i :: 0 <= i < |ws[k]| ==> !IsSpace(ws[k][i])
    ensures WordsAll(ws) == ws
  {
    hide Words;
    if ws != [] {
      WordAlone(ws[0]);
      AllAlone(ws[1..]);
      assert [ws[0]] + ws[1..] == ws;
    }
  }

  // ---- any document

  predicate Container(kind: string) { kind != "text" && kind != "hardBreak" }

  /** Every kind but text and line break is what is inside it; a paragraph has an empty line behind it. */
  lemma ContainerFlat(kind: string, text: string, content: Node)
    requires Container(kind)
    ensures Flat(Obj(kind, text, content)) == Flat(content) + if kind == "paragraph" then "\n\n" else ""
    ensures Words(Flat(Obj(kind, text, content))) == Words(Flat(content))
    ensures Flat(Other) == "" && forall s :: Flat(Str(s)) == s
  {
    hide Words;
    var inner := Flat(content);
    assert inner + "" == inner;
    if kind == "paragraph" {
      WordsBefore(inner);
    }
  }

  lemma WordsBefore(s: string)
    ensures Words(s + "\n\n") == Words(s)
  {
    hide Scan;
    assert Blank("\n\n");
    WordsAcross(s, "\n\n", "");
    assert s + "\n\n" + "" == s + "\n\n";
    ScanBlank("");
    assert Words(s) + [] == Words(s);
  }

  /** `inner` inside containers of the given kinds, one in the other. */
  function Nest(kinds: seq<string>, inner: Node): Node {
    if kinds == [] then inner else Obj(kinds[0], "", List([Nest(kinds[1..], inner)]))
  }

  /** However deep it stands, a text keeps its words. */
  lemma {:induction false} NestWords(kinds: seq<string>, inner: Node)
    requires forall i :: 0 <= i < |kinds| ==> Container(kinds[i])
    ensures Words(Flat(Nest(kinds, inner))) == Words(Flat(inner))
  {
    hide Words, Flat, FlatAll, Container;
    if kinds != [] {
      var n := Nest(kinds[1..], inner);
      NestWords(kinds[1..], inner);
      ContainerFlat(kinds[0], "", List([n]));
      FlatKinds("", n, [n]);
      FlatOne(n);
    }
  }

  /** A document whose texts stand in paragraphs of their own, these in any nest of containers. */
  predicate Blocks(n: Node)
    decreases n, 0
  {
    n.Obj? && Container(n.kind) && n.content.List?
    && if n.kind == "paragraph" then
         |n.content.items| == 1 && n.content.items[0].Obj? && n.content.items[0].kind == "text"
       else AllBlocks(n.content.items)
  }

  predicate AllBlocks(items: seq<Node>)
    decreases items, 1
  {
    items == [] || (Blocks(items[0]) && AllBlocks(items[1..]))
  }

  /** The texts of such a document, in order. */
  function Told(n: Node): seq<string>
    requires Blocks(n)
    decreases n, 0
  {
    if n.kind == "paragraph" then [n.content.items[0].text] else ToldAll(n.content.items)
  }

  function ToldAll(items: seq<Node>): seq<string>
    requires AllBlocks(items)
    decreases items, 1
  {
    if items == [] then [] else Told(items[0]) + ToldAll(items[1..])
  }

  /** Nothing, or something with an empty line behind it. */
  predicate Closed(s: string) { s == "" || (|s| >= 2 && s[|s| - 2..] == "\n\n") }

  lemma ClosedConcat(a: string, b: string)
    requires Closed(a) && Closed(b)
    ensures Closed(a + b)
    ensures Words(a + b) == Words(a) + Words(b)
  {
    hide Words;
    if a == "" {
      assert a + b == b;
      NoWords();
      assert [] + Words(b) == Words(b);
    } else {
      var pre := a[..|a| - 2];
      assert a == pre + "\n\n";
      assert Blank("\n\n");
      WordsAcross(pre, "\n\n", b);
      WordsBefore(pre);
      if b != "" {
        assert (a + b)[|a + b| - 2..] == b[|b| - 2..];
      } else {
        assert a + b == a;
      }
    }
  }

  lemma NoWords()
    ensures Words("") == []
  {}

  lemma {:induction false} BlockWords(n: Node)
    requires Blocks(n)
    ensures Closed(Flat(n)) && Words(Flat(n)) == WordsAll(Told(n))
    decreases n, 0
  {
    hide Words, Flat, FlatAll, WordsAll;
    ContainerFlat(n.kind, n.text, n.content);
    FlatKinds("", n, n.content.items);
    if n.kind == "paragraph" {
      var t := n.content.items[0];
      assert n.content.items == [t];
      FlatOne(t);
      TextFlat(t);
      OneText(t.text);
      var s := Flat(n);
      assert s == t.text + "\n\n" && s[|s| - 2..] == "\n\n";
    } else {
      AllBlockWords(n.content.items);
      assert Flat(n.content) + "" == Flat(n.content);
    }
  }

  lemma TextFlat(t: Node)
    requires t.Obj? && t.kind == "text"
    ensures Flat(t) == t.text
  {}

  lemma OneText(s: string)
    ensures WordsAll([s]) == Words(s)
  {
    hide Words;
    assert [s][1..] == [];
    assert Words(s) + [] == Words(s);
  }

  lemma {:induction false} AllBlockWords(items: seq<Node>)
    requires AllBlocks(items)
    ensures Closed(FlatAll(items)) && Words(FlatAll(items)) == WordsAll(ToldAll(items))
    decreases items, 1
  {
    hide Words, Flat, Blocks, Told;
    if items == [] {
      NoWords();
    } else {
      BlockWords(items[0]);
      AllBlockWords(items[1..]);
      ClosedConcat(Flat(items[0]), FlatAll(items[1..]));
      WordsAllConcat(Told(items[0]), ToldAll(items[1..]));
    }
  }

  /** A comment with the words of the text, by whatever hand and in whatever form, keeps a run from adding one. */
  lemma ForeignFound(comments: seq<Node>, i: nat, text: string)
    requires i < |comments| && Blocks(comments[i]) && WordsAll(Told(comments[i])) == Words(text)
    ensures Present(comments, Normalise(text)) && Once(comments, text) == comments
  {
    hide Words, Flat, Blank, Blocks, Told, WordsAll;
    BlockWords(comments[i]);
    NormaliseIff(Flat(comments[i]), text);
    hide Normalise;
  }

  /** So does a single text in any nest of containers, such as a heading or a list. */
  lemma NestFound(comments: seq<Node>, i: nat, kinds: seq<string>, leaf: Node, text: string)
    requires i < |comments| && comments[i] == Nest(kinds, leaf)
    requires forall k :: 0 <= k < |kinds| ==> Container(kinds[k])
    requires leaf.Obj? && leaf.kind == "text" && Words(leaf.text) == Words(text)
    ensures Present(comments, Normalise(text)) && Once(comments, text) == comments
  {
    hide Words, Flat, Blank, Nest, Container;
    NestWords(kinds, leaf);
    TextFlat(leaf);
    NormaliseIff(Flat(comments[i]), text);
    hide Normalise;
  }

  // ---- tidy text keeps its lines

  /** No empty line inside, no break at the end. */
  predicate NoGap(p: string) {
    && (forall i :: 0 <= i < |p| - 1 ==> p[i] != '\n' || p[i + 1] != '\n')
    && (p != "" ==> p[|p| - 1] != '\n')
  }

  /** A paragraph that begins and ends with a line that is not blank, and has no empty line. */
  predicate Tidy(p: string) {
    var lines := Split(p, '\n');
    NoGap(p) && '\r' !in p && !Blank(lines[0]) && !Blank(lines[|lines| - 1])
  }

  lemma {:induction false} CutParagraph(p: string, rest: string)
    requires NoGap(p)
    ensures Paragraphs(p + "\n\n" + rest) == [p] + Paragraphs(rest)
    decreases |p|
  {
    var s := p + "\n\n" + rest;
    if p == "" {
      assert s[2..] == rest && s[0] == '\n' && s[1] == '\n';
    } else {
      assert NoGap(p[1..]);
      assert s[1..] == p[1..] + "\n\n" + rest && s[0] == p[0];
      assert s[0] != '\n' || s[1] != '\n';
      CutParagraph(p[1..], rest);
      assert [p[0]] + p[1..] == p;
    }
  }

  lemma {:induction false} LastParagraph(p: string)
    requires NoGap(p)
    ensures Paragraphs(p) == [p]
    decreases |p|
  {
    if p != "" {
      assert NoGap(p[1..]);
      LastParagraph(p[1..]);
      assert [p[0]] + p[1..] == p;
    }
  }

  lemma {:induction false} ParagraphsOfTidy(paras: seq<string>)
    requires paras != [] && forall i :: 0 <= i < |paras| ==> NoGap(paras[i])
    ensures Paragraphs(Join(paras, "\n\n")) == paras
  {
    hide NoGap, Paragraphs;
    if |paras| == 1 {
      LastParagraph(paras[0]);
    } else {
      ParagraphsOfTidy(paras[1..]);
      CutParagraph(paras[0], Join(paras[1..], "\n\n"));
    }
  }

  lemma TidyTrimmed(p: string)
    requires Tidy(p)
    ensures Trimmed(p) == Split(p, '\n')
  {
    hide Split, Blank, NoGap;
  }

  lemma {:induction false} TidyContent(paras: seq<string>)
    requires forall i :: 0 <= i < |paras| ==> Tidy(paras[i])
    ensures |Content(paras)| == |paras|
    ensures paras != [] ==> FlatAll(Content(paras)) == Join(paras, "\n\n") + "\n\n"
    ensures paras == [] ==> FlatAll(Content(paras)) == ""
  {
    hide Tidy, Flat, Trimmed, Nodes, Split;
    if paras != [] {
      var p, rest := paras[0], paras[1..];
      var lines := Trimmed(p);
      var node := Obj("paragraph", "", List(Nodes(lines, true)));
      TidyTrimmed(p);
      ParagraphText(lines);
      JoinSplit(p, '\n');
      TidyContent(rest);
      assert Content(paras) == [node] + Content(rest);
      assert ([node] + Content(rest))[1..] == Content(rest);
      assert FlatAll(Content(paras)) == Flat(node) + FlatAll(Content(rest));
      if rest == [] {
        assert (p + "\n\n") + "" == p + "\n\n";
      } else {
        assert (p + "\n\n") + (Join(rest, "\n\n") + "\n\n") == (p + "\n\n" + Join(rest, "\n\n")) + "\n\n";
      }
    }
  }

  /** Tidy paragraphs become one node each and come back line for line. */
  lemma TidySurvives(paras: seq<string>)
    requires paras != [] && forall i :: 0 <= i < |paras| ==> Tidy(paras[i])
    ensures var text := Join(paras, "\n\n");
            && Adf(text) == Document(Content(paras)) && |Content(paras)| == |paras|
            && Flat(Adf(text)) == text + "\n\n"
  {
    hide Tidy, Flat, Content, Paragraphs, Split;
    var text := Join(paras, "\n\n");
    forall i | 0 <= i < |paras| ensures NoGap(paras[i]) && '\r' !in paras[i] {
      TidyParts(paras[i]);
    }
    JoinFree(paras, "\n\n", '\r');
    ParagraphsOfTidy(paras);
    TidyContent(paras);
    DocumentText(Content(paras));
  }

  lemma TidyParts(p: string)
    requires Tidy(p)
    ensures NoGap(p) && '\r' !in p
  {
    hide NoGap, Split, Blank;
  }
}
