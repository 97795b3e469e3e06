/** The normaliser on concrete inputs: a plain indented list, a tree drawing,
    a drawing of glyphs that falls through to the indentation pass, a glyph
    line the tree pass keeps, and a line lost to a carriage return. */
module SmartTextExamples {
  import opened JsText
  import opened SmartText
  import opened SmartTextFacts

  /** A literal line free of line terminators: it stays on one line and survives `split`. */
  lemma OneLine(l: string)
    requires '\n' !in l && '\r' !in l && '\U{2028}' !in l && '\U{2029}' !in l
    ensures NoLineTerminator(l) && SplitSafe(l)
  {
  }

  /** The bullet of a tree line, from its three runs. */
  lemma TreeLineIs(l: string, a: nat, b: nat, c: nat, level: nat, text: string)
    requires a == Span(l, 0, IsPrefixChar) && b == Span(l, a, IsConnector) && c == Span(l, b, IsSpace)
    requires NoLineTerminator(l) && Trim(l[c..]) == text && text != []
    requires TreeLevel(l[..a], l[a..b]) == level
    ensures TreeLine(l) == Some(OutlineLine(level, text))
  {
    MatchTreeLineAt(l, a, b, c);
    TreeLineOf(l, TreeMatch(l[..a], l[a..b], l[c..]));
  }

  lemma TrimNoSpace(w: string)
    requires w != [] && !IsSpace(w[0]) && !IsSpace(w[|w| - 1])
    ensures Trim(w) == w
  {
    SpanUnique(w, 0, 0, IsSpace);
  }

  /** A line that is a single word: a bullet at level 0, and no marker. */
  lemma WordLine(w: string)
    requires ValidText(w) && !IsBar(w[0]) && !IsConnector(w[0]) && !IsListMarker(w[0]) && !IsDigit(w[0])
    ensures TreeLine(w) == Some(OutlineLine(0, w)) && PlainStart(w)
  {
    SpanUnique(w, 0, 0, IsPrefixChar);
    SpanUnique(w, 0, 0, IsConnector);
    SpanUnique(w, 0, 0, IsSpace);
    TrimNoSpace(w);
    assert w[..0] == [] && w[0..0] == [];
    TreeLineIs(w, 0, 0, 0, 0, w);
  }

  /** A single word behind n pairs of spaces is a bullet at level n. */
  lemma {:induction false} IndentedWord(l: string, n: nat)
    requires 2 * n <= |l| && forall k :: 0 <= k < 2 * n ==> l[k] == ' '
    requires var w := l[2 * n..]; ValidText(w) && !IsBar(w[0]) && !IsConnector(w[0]) && !IsListMarker(w[0]) && !IsDigit(w[0])
    ensures TreeLine(l) == Some(OutlineLine(n, l[2 * n..]))
    decreases n
  {
    if n == 0 {
      assert l == l[2 * n..];
      WordLine(l);
    } else {
      var u := l[2..];
      assert u[2 * (n - 1)..] == l[2 * n..];
      IndentedWord(u, n - 1);
      TwoSpacesOneLevel(l);
    }
  }

  /** ... and its first word starts plainly. */
  lemma IndentedWordPlain(l: string, n: nat)
    requires 2 * n < |l| && forall k :: 0 <= k < 2 * n ==> l[k] == ' '
    requires !IsSpace(l[2 * n]) && !IsListMarker(l[2 * n]) && !IsDigit(l[2 * n])
    ensures PlainStart(l)
  {
    SpanUnique(l, 0, 2 * n, IsSpace);
  }

  /** A line of n pairs of spaces and a word: a bullet at level n, a plain
      start, and a line that survives `split`. */
  lemma IndentedWordLine(l: string, n: nat)
    requires 2 * n < |l| && forall k :: 0 <= k < 2 * n ==> l[k] == ' '
    requires NoLineTerminator(l) && SplitSafe(l) && !IsSpace(l[|l| - 1])
    requires var c := l[2 * n]; !IsSpace(c) && !IsBar(c) && !IsConnector(c) && !IsListMarker(c) && !IsDigit(c)
    ensures TreeLine(l) == Some(OutlineLine(n, l[2 * n..])) && PlainStart(l)
  {
    var w := l[2 * n..];
    assert w[0] == l[2 * n] && w[|w| - 1] == l[|l| - 1];
    assert NoLineTerminator(w) by {
      forall k | 0 <= k < |w| ensures !IsLineTerminator(w[k]) {
        assert w[k] == l[2 * n + k];
      }
    }
    IndentedWord(l, n);
    IndentedWordPlain(l, n);
  }

  /** Joining three lines. */
  lemma JoinThree(a: string, b: string, c: string)
    ensures JoinLines([a, b, c]) == a + "\n" + b + "\n" + c
  {
    assert [a, b, c][1..] == [b, c] && [b, c][1..] == [c];
    assert JoinLines([b, c]) == b + "\n" + c;
    assert JoinLines([a, b, c]) == a + "\n" + (b + "\n" + c);
  }

  /** Rendering three bullets. */
  lemma RenderAllThree(a: OutlineLine, b: OutlineLine, c: OutlineLine)
    ensures RenderAll([a, b, c]) == [Render(a), Render(b), Render(c)]
  {
    assert [a, b, c][..2] == [a, b] && [a, b][..1] == [a] && [a][..0] == [];
    assert RenderAll([a]) == [Render(a)];
    assert RenderAll([a, b]) == [Render(a), Render(b)];
  }

  /** The whole cascade on a text of lines that stay on one line, start
      plainly and give a tree-pass bullet each. */
  lemma NormalizeTreeLines(text: string, ls: seq<string>, outline: seq<OutlineLine>)
    requires |ls| >= 1 && text == JoinLines(ls)
    requires forall i :: 0 <= i < |ls| ==> GoodLine(ls[i])
    requires Outline(ls, TreePass) == outline && outline != []
    ensures Normalize(text) == JoinLines(RenderAll(outline))
  {
    NoMarkerInPlainLines(ls);
    SplitJoin(ls);
  }

  /** The same when the tree pass finds nothing and the indentation pass does. */
  lemma NormalizeIndentLines(text: string, ls: seq<string>, outline: seq<OutlineLine>)
    requires |ls| >= 1 && text == JoinLines(ls)
    requires forall i :: 0 <= i < |ls| ==> GoodLine(ls[i])
    requires Outline(ls, TreePass) == [] && Outline(ls, IndentPass) == outline && outline != []
    ensures Normalize(text) == JoinLines(RenderAll(outline))
  {
    NoMarkerInPlainLines(ls);
    SplitJoin(ls);
  }

  /** Joining two lines. */
  lemma JoinTwo(a: string, b: string)
    ensures JoinLines([a, b]) == a + "\n" + b
  {
    assert [a, b][1..] == [b];
  }

  /** Rendering two bullets. */
  lemma RenderAllTwo(a: OutlineLine, b: OutlineLine)
    ensures RenderAll([a, b]) == [Render(a), Render(b)]
  {
    assert [a, b][..1] == [a] && [a][..0] == [];
  }

  /** A line that stays on one line, starts plainly and survives `split`. */
  predicate GoodLine(l: string) {
    NoLineTerminator(l) && PlainStart(l) && SplitSafe(l)
  }

  lemma TwoGood(a: string, b: string)
    requires GoodLine(a) && GoodLine(b)
    ensures forall i :: 0 <= i < 2 ==> GoodLine([a, b][i])
  {
  }

  lemma ThreeGood(a: string, b: string, c: string)
    requires GoodLine(a) && GoodLine(b) && GoodLine(c)
    ensures forall i :: 0 <= i < 3 ==> GoodLine([a, b, c][i])
  {
  }

  /** Three lines, each a tree-pass bullet with a plain start, normalise to
      the three renderings joined by line feeds. */
  lemma ThreeTreeLines(a: string, b: string, c: string, oa: OutlineLine, ob: OutlineLine, oc: OutlineLine)
    requires GoodLine(a) && TreeLine(a) == Some(oa)
    requires GoodLine(b) && TreeLine(b) == Some(ob)
    requires GoodLine(c) && TreeLine(c) == Some(oc)
    ensures Normalize(a + "\n" + b + "\n" + c) == Render(oa) + "\n" + Render(ob) + "\n" + Render(oc)
  {
    ThreeGood(a, b, c);
    ThreeKept(a, b, c, oa, ob, oc, TreePass);
    JoinThree(a, b, c);
    NormalizeTreeLines(a + "\n" + b + "\n" + c, [a, b, c], [oa, ob, oc]);
    RenderAllThree(oa, ob, oc);
    JoinThree(Render(oa), Render(ob), Render(oc));
  }

  // ---------------------------------------------------------------------
  // "root\n  child\n    grandchild"

  lemma RootLine(l: string)
    requires l == "root"
    ensures TreeLine(l) == Some(OutlineLine(0, "root")) && GoodLine(l)
  {
    OneLine(l);
    IndentedWordLine(l, 0);
  }

  lemma ChildLine(l: string)
    requires l == "  child"
    ensures TreeLine(l) == Some(OutlineLine(1, "child")) && GoodLine(l)
  {
    OneLine(l);
    IndentedWordLine(l, 1);
    ChildWord(l);
  }

  lemma GrandchildLine(l: string)
    requires l == "    grandchild"
    ensures TreeLine(l) == Some(OutlineLine(2, "grandchild")) && GoodLine(l)
  {
    OneLine(l);
    IndentedWordLine(l, 2);
    GrandchildWord(l);
  }

  lemma ChildWord(l: string)
    requires l == "  child"
    ensures l[2..] == "child"
  {
    assert l == "  " + "child";
  }

  lemma GrandchildWord(l: string)
    requires l == "    grandchild"
    ensures l[4..] == "grandchild"
  {
    assert l == "    " + "grandchild";
  }

  lemma RenderRoot()
    ensures Render(OutlineLine(0, "root")) == "- root"
  {
  }

  lemma RenderChild()
    ensures Render(OutlineLine(1, "child")) == "  - child"
  {
    assert Indent(1) == "  ";
  }

  lemma RenderGrandchild()
    ensures Render(OutlineLine(2, "grandchild")) == "    - grandchild"
  {
    assert Indent(2) == "    ";
  }

  /** An indented list: two spaces per level, each line one bullet. */
  lemma IndentedListExample()
    ensures Normalize("root\n  child\n    grandchild") == "- root\n  - child\n    - grandchild"
  {
    RootLine("root");
    ChildLine("  child");
    GrandchildLine("    grandchild");
    ThreeTreeLines("root", "  child", "    grandchild",
      OutlineLine(0, "root"), OutlineLine(1, "child"), OutlineLine(2, "grandchild"));
    RenderRoot();
    RenderChild();
    RenderGrandchild();
    IndentedListText();
  }

  lemma IndentedListText()
    ensures "root\n  child\n    grandchild" == "root" + "\n" + "  child" + "\n" + "    grandchild"
    ensures "- root\n  - child\n    - grandchild" == "- root" + "\n" + "  - child" + "\n" + "    - grandchild"
  {
  }

  // ---------------------------------------------------------------------
  // "├─ a\n│  ├─ b"

  /** The three runs of a connector line: no prefix, two connectors, one space. */
  lemma ConnectorSpans(l: string)
    requires |l| == 4 && IsConnector(l[0]) && IsConnector(l[1]) && l[2] == ' ' && !IsSpace(l[3])
    ensures Span(l, 0, IsPrefixChar) == 0 && Span(l, 0, IsConnector) == 2 && Span(l, 2, IsSpace) == 3
  {
    SpanUnique(l, 0, 0, IsPrefixChar);
    SpanUnique(l, 0, 2, IsConnector);
    SpanUnique(l, 2, 3, IsSpace);
  }

  /** Two connectors, a space and one character: a bullet at level 1. */
  lemma ConnectorWordLine(l: string)
    requires |l| == 4 && IsConnector(l[0]) && IsConnector(l[1]) && l[2] == ' '
    requires !IsSpace(l[3]) && !IsLineTerminator(l[3])
    ensures TreeLine(l) == Some(OutlineLine(1, l[3..]))
  {
    ConnectorSpans(l);
    var w := l[3..];
    assert Trim(w) == w by {
      assert w[0] == l[3] && |w| == 1;
      TrimNoSpace(w);
    }
    assert l[..0] == [] && l[0..2] != [];
    TreeLineIs(l, 0, 2, 3, 1, w);
  }

  lemma ConnectorWordGood(l: string)
    requires |l| == 4 && IsConnector(l[0]) && IsConnector(l[1]) && l[2] == ' '
    requires !IsSpace(l[3]) && !IsLineTerminator(l[3])
    ensures GoodLine(l)
  {
    SpanUnique(l, 0, 0, IsSpace);
  }

  /** A bar, two spaces and a connector line: two more levels, the same text. */
  lemma StemWordLine(l: string)
    requires |l| == 7 && l[0] == '│' && l[1] == ' ' && l[2] == ' '
    requires IsConnector(l[3]) && IsConnector(l[4]) && l[5] == ' '
    requires !IsSpace(l[6]) && !IsLineTerminator(l[6])
    ensures TreeLine(l) == Some(OutlineLine(3, l[6..]))
  {
    var u := l[1..];
    var w := u[2..];
    assert w[0] == l[3] && w[1] == l[4] && w[2] == l[5] && w[3] == l[6] && |w| == 4;
    ConnectorWordLine(w);
    TwoSpacesOneLevel(u);
    BarOneLevel(l);
    assert w[3..] == l[6..];
    assert TreeLine(l).value == OutlineLine(3, l[6..]);
  }

  lemma StemWordGood(l: string)
    requires |l| == 7 && l[0] == '│' && l[1] == ' ' && l[2] == ' '
    requires IsConnector(l[3]) && IsConnector(l[4]) && l[5] == ' '
    requires !IsSpace(l[6]) && !IsLineTerminator(l[6])
    ensures GoodLine(l)
  {
    SpanUnique(l, 0, 0, IsSpace);
  }

  /** Two lines, each a tree-pass bullet with a plain start, normalise to
      the two renderings joined by a line feed. */
  lemma TwoTreeLines(a: string, b: string, oa: OutlineLine, ob: OutlineLine)
    requires GoodLine(a) && TreeLine(a) == Some(oa)
    requires GoodLine(b) && TreeLine(b) == Some(ob)
    ensures Normalize(a + "\n" + b) == Render(oa) + "\n" + Render(ob)
  {
    TwoGood(a, b);
    TwoKept(a, b, oa, ob, TreePass);
    JoinTwo(a, b);
    NormalizeTreeLines(a + "\n" + b, [a, b], [oa, ob]);
    RenderAllTwo(oa, ob);
    JoinTwo(Render(oa), Render(ob));
  }

  lemma LineA()
    ensures TreeLine("├─ a") == Some(OutlineLine(1, "a")) && GoodLine("├─ a")
  {
    ConnectorWordLine("├─ a");
    ConnectorWordGood("├─ a");
    assert "├─ a"[3..] == "a";
  }

  lemma LineB()
    ensures TreeLine("│  ├─ b") == Some(OutlineLine(3, "b")) && GoodLine("│  ├─ b")
  {
    StemWordLine("│  ├─ b");
    StemWordGood("│  ├─ b");
    assert "│  ├─ b"[6..] == "b";
  }

  lemma RenderA()
    ensures Render(OutlineLine(1, "a")) == "  - a"
  {
    assert Indent(1) == "  ";
  }

  lemma RenderB()
    ensures Render(OutlineLine(3, "b")) == "      - b"
  {
    assert Indent(3) == "      ";
  }

  lemma TreeText()
    ensures "├─ a\n│  ├─ b" == "├─ a" + "\n" + "│  ├─ b"
    ensures "  - a\n      - b" == "  - a" + "\n" + "      - b"
  {
  }

  /** A tree drawing: a top-level connector line is already at level 1, and
      a bar, two spaces and a connector put the child at level 3. */
  lemma TreeDrawingExample()
    ensures Normalize("├─ a\n│  ├─ b") == "  - a\n      - b"
  {
    LineA();
    LineB();
    TwoTreeLines("├─ a", "│  ├─ b", OutlineLine(1, "a"), OutlineLine(3, "b"));
    RenderA();
    RenderB();
    TreeText();
  }

  // ---------------------------------------------------------------------
  // "├─\n│"

  /** A line of the shape `[\s│]*[├└─]*\s*`: no tree-pass bullet, an indentation-pass
      bullet of the whole line at level 0. */
  lemma GlyphOnlyLine(l: string, a: nat, b: nat)
    requires GlyphsThenSpace(l, a, b, |l|) && l != [] && NoLineTerminator(l)
    requires !IsSpace(l[0]) && !IsSpace(l[|l| - 1])
    ensures TreeLine(l).None? && IndentLine(l) == Some(OutlineLine(0, l))
  {
    GlyphLineDropped(l, a, b);
    SpanUnique(l, 0, 0, IsSpace);
    MatchIndentLineAt(l, 0);
    assert l[..0] == [] && l[0..] == l;
    TrimNoSpace(l);
    IndentLineOf(l, IndentMatch([], l));
  }

  /** "├─": the two connectors alone. */
  lemma GlyphLineConnectors(l: string)
    requires |l| == 2 && l[0] == '├' && l[1] == '─'
    ensures TreeLine(l).None? && IndentLine(l) == Some(OutlineLine(0, l))
  {
    GlyphOnlyLine(l, 0, 2);
  }

  lemma GlyphConnectorsGood(l: string)
    requires |l| == 2 && l[0] == '├' && l[1] == '─'
    ensures GoodLine(l)
  {
    SpanUnique(l, 0, 0, IsSpace);
  }

  /** "│": the bar alone. */
  lemma GlyphLineBar(l: string)
    requires |l| == 1 && l[0] == '│'
    ensures TreeLine(l).None? && IndentLine(l) == Some(OutlineLine(0, l))
  {
    GlyphOnlyLine(l, 1, 1);
  }

  lemma GlyphBarGood(l: string)
    requires |l| == 1 && l[0] == '│'
    ensures GoodLine(l)
  {
    SpanUnique(l, 0, 0, IsSpace);
  }

  /** Two lines the tree pass drops and the indentation pass keeps normalise
      to the two renderings of the indentation pass. */
  lemma TwoIndentLines(a: string, b: string, oa: OutlineLine, ob: OutlineLine)
    requires GoodLine(a) && TreeLine(a).None? && IndentLine(a) == Some(oa)
    requires GoodLine(b) && TreeLine(b).None? && IndentLine(b) == Some(ob)
    ensures Normalize(a + "\n" + b) == Render(oa) + "\n" + Render(ob)
  {
    TwoGood(a, b);
    TwoDropped(a, b, TreePass);
    TwoKept(a, b, oa, ob, IndentPass);
    JoinTwo(a, b);
    NormalizeIndentLines(a + "\n" + b, [a, b], [oa, ob]);
    RenderAllTwo(oa, ob);
    JoinTwo(Render(oa), Render(ob));
  }

  lemma GlyphText()
    ensures "├─\n│" == "├─" + "\n" + "│"
    ensures "- ├─\n- │" == "- ├─" + "\n" + "- │"
    ensures Render(OutlineLine(0, "├─")) == "- ├─"
    ensures Render(OutlineLine(0, "│")) == "- │"
  {
  }

  /** Glyph lines of that shape: the tree pass finds nothing, so the
      indentation pass turns each line, glyphs and all, into a bullet. */
  lemma GlyphDrawingExample()
    ensures Normalize("├─\n│") == "- ├─\n- │"
  {
    GlyphLineConnectors("├─");
    GlyphConnectorsGood("├─");
    GlyphLineBar("│");
    GlyphBarGood("│");
    TwoIndentLines("├─", "│", OutlineLine(0, "├─"), OutlineLine(0, "│"));
    GlyphText();
  }

  /** The three runs of a connector followed by a bar: one connector, no space. */
  lemma ConnectorBarSpans(l: string)
    requires |l| == 2 && IsConnector(l[0]) && l[1] == '│'
    ensures Span(l, 0, IsPrefixChar) == 0 && Span(l, 0, IsConnector) == 1 && Span(l, 1, IsSpace) == 1
  {
    SpanUnique(l, 0, 0, IsPrefixChar);
    SpanUnique(l, 0, 1, IsConnector);
    SpanUnique(l, 1, 1, IsSpace);
  }

  /** A connector and then a bar: the greedy connector run stops at the bar,
      which `\s*` cannot take either, so the bar is content and the line is a
      bullet at level 1 although it holds glyphs only. */
  lemma ConnectorBarLine(l: string)
    requires |l| == 2 && IsConnector(l[0]) && l[1] == '│'
    ensures TreeLine(l) == Some(OutlineLine(1, l[1..]))
  {
    ConnectorBarSpans(l);
    var w := l[1..];
    assert Trim(w) == w by {
      assert w[0] == l[1] && |w| == 1;
      TrimNoSpace(w);
    }
    assert l[..0] == [] && l[0..1] != [];
    TreeLineIs(l, 0, 1, 1, 1, w);
  }

  lemma ConnectorBarGood(l: string)
    requires |l| == 2 && IsConnector(l[0]) && l[1] == '│'
    ensures GoodLine(l)
  {
    SpanUnique(l, 0, 0, IsSpace);
  }

  /** One kept line is outlined as its bullet. */
  lemma OneKept(a: string, oa: OutlineLine)
    requires TreeLine(a) == Some(oa)
    ensures Outline([a], TreePass) == [oa]
  {
    assert [a][..0] == [];
  }

  lemma OneGood(a: string)
    requires GoodLine(a)
    ensures forall i :: 0 <= i < 1 ==> GoodLine([a][i])
  {
  }

  /** A single line that starts plainly and is kept by the tree pass
      normalises to its rendering. */
  lemma OneTreeLine(a: string, oa: OutlineLine)
    requires GoodLine(a) && TreeLine(a) == Some(oa)
    ensures Normalize(a) == Render(oa)
  {
    OneGood(a);
    OneKept(a, oa);
    assert JoinLines([a]) == a;
    NormalizeTreeLines(a, [a], [oa]);
    assert RenderAll([oa]) == [Render(oa)] by {
      assert [oa][..0] == [];
    }
    assert JoinLines([Render(oa)]) == Render(oa);
  }

  lemma LineConnectorBar()
    ensures TreeLine("─│") == Some(OutlineLine(1, "│")) && GoodLine("─│")
  {
    ConnectorBarLine("─│");
    ConnectorBarGood("─│");
    assert "─│"[1..] == "│";
  }

  lemma RenderBar()
    ensures Render(OutlineLine(1, "│")) == "  - │"
  {
    assert Indent(1) == "  ";
  }

  /** `"─│"` is glyphs only, yet the tree pass keeps it: the whole text
      becomes one bullet at level 1. */
  lemma ConnectorBarExample()
    ensures TreeLine("─│") == Some(OutlineLine(1, "│"))
    ensures Normalize("─│") == "  - │"
  {
    LineConnectorBar();
    OneTreeLine("─│", OutlineLine(1, "│"));
    RenderBar();
  }

  /** A line such as "a\rb" is dropped by both passes; next to the glyph
      line the tree pass finds nothing, and the indentation pass keeps only
      the glyphs. */
  lemma TerminatorLineLost(a: string, b: string)
    requires |a| == 3 && a[0] == 'a' && a[1] == '\r' && a[2] == 'b'
    requires |b| == 2 && b[0] == '├' && b[1] == '─'
    ensures Outline([a, b], TreePass) == []
    ensures Outline([a, b], IndentPass) == [OutlineLine(0, b)]
  {
    TerminatorLineDropped(a, 1);
    GlyphLineConnectors(b);
    TwoDropped(a, b, TreePass);
    OutlineTwo(a, b, IndentPass);
  }

  lemma TerminatorLineExample()
    ensures Outline(["a\rb", "├─"], TreePass) == []
    ensures Outline(["a\rb", "├─"], IndentPass) == [OutlineLine(0, "├─")]
  {
    TerminatorLineLost("a\rb", "├─");
  }
}
