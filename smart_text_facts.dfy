/** What the normaliser promises: when it hands the text back, what its output
    looks like, that it is idempotent, and how each pass reads one line. */
module SmartTextFacts {
  import opened JsText
  import opened SmartText

  // ---------------------------------------------------------------------
  // The canonical bullet line and its inverse

  /** Reads a canonical bullet line back: an even run of spaces, "- ", a valid text. */
  function ParseRendered(line: string): (o: Option<OutlineLine>)
    ensures o.Some? ==> ValidText(o.value.text)
  {
    var n := Span(line, 0, IsAsciiSpace);
    if n % 2 == 0 && n + 2 <= |line| && line[n] == '-' && line[n + 1] == ' ' && ValidText(line[n + 2..])
    then Some(OutlineLine(n / 2, line[n + 2..]))
    else None
  }

  /** The indentation of n levels is followed by a character that is not a space. */
  lemma IndentSpan(n: nat, rest: string)
    requires rest != [] && rest[0] != ' '
    ensures Span(Indent(n) + rest, 0, IsAsciiSpace) == 2 * n
  {
    var s := Indent(n) + rest;
    SpanThrough(s, 0, 2 * n, IsAsciiSpace);
    assert s[2 * n] == rest[0];
  }

  /** Reading a rendered bullet gives the bullet back. */
  lemma ParseRender(o: OutlineLine)
    requires ValidText(o.text)
    ensures ParseRendered(Render(o)) == Some(o)
  {
    var line := Render(o);
    var n := 2 * o.level;
    assert Span(line, 0, IsAsciiSpace) == n by {
      assert line == Indent(o.level) + ("- " + o.text);
      IndentSpan(o.level, "- " + o.text);
    }
    assert n % 2 == 0 && n / 2 == o.level;
    assert line[n] == '-' && line[n + 1] == ' ';
    assert line[n + 2..] == o.text;
  }

  /** A line that reads as a bullet is that bullet's rendering. */
  lemma RenderParse(line: string)
    requires ParseRendered(line).Some?
    ensures Render(ParseRendered(line).value) == line
  {
    var n := Span(line, 0, IsAsciiSpace);
    SpanFacts(line, 0, IsAsciiSpace);
    var o := ParseRendered(line).value;
    assert Indent(o.level) == line[..n];
    assert line == line[..n] + "- " + line[n + 2..];
  }

  /** A rendered bullet survives `split`: it holds no "\n" and does not end in "\r". */
  lemma RenderSplitSafe(o: OutlineLine)
    requires ValidText(o.text)
    ensures SplitSafe(Render(o))
  {
    var line := Render(o);
    assert line == (Indent(o.level) + "- ") + o.text;
    forall i | 0 <= i < |line| ensures line[i] != '\n' {
      if i >= 2 * o.level + 2 {
        assert line[i] == o.text[i - 2 * o.level - 2];
      }
    }
    assert line[|line| - 1] == o.text[|o.text| - 1];
  }

  /** A rendered bullet starts with what the list-marker test looks for. */
  lemma RenderMarker(o: OutlineLine)
    requires ValidText(o.text)
    ensures MarkerAt(Render(o), 0)
  {
    var line := Render(o);
    var n := 2 * o.level;
    SpanThrough(line, 0, n, IsSpace);
    assert line[n] == '-' && line[n + 1] == ' ';
  }

  // ---------------------------------------------------------------------
  // The output of the normaliser

  /** When the cascade produces bullets, the output splits into exactly the
      rendered bullets, one per line, and each reads back as its bullet. */
  lemma NormalizedLines(text: string)
    requires !HasListMarker(text) && ParseOutline(SplitLines(text)) != []
    ensures var outline := ParseOutline(SplitLines(text));
      SplitLines(Normalize(text)) == RenderAll(outline)
      && |SplitLines(Normalize(text))| == |outline|
      && forall i :: 0 <= i < |outline| ==> ParseRendered(SplitLines(Normalize(text))[i]) == Some(outline[i])
  {
    var lines := SplitLines(text);
    var outline := ParseOutline(lines);
    var rendered := RenderAll(outline);
    assert forall i :: 0 <= i < |outline| ==> ValidText(outline[i].text) by {
      OutlineValid(lines, TreePass);
      OutlineValid(lines, IndentPass);
    }
    forall i | 0 <= i < |rendered| ensures SplitSafe(rendered[i]) && ParseRendered(rendered[i]) == Some(outline[i]) {
      RenderAllAt(outline, i);
      RenderSplitSafe(outline[i]);
      ParseRender(outline[i]);
    }
    SplitJoin(rendered);
  }

  /** The normaliser's output, fed back in, comes out unchanged. */
  lemma NormalizeIdempotent(text: string)
    ensures Normalize(Normalize(text)) == Normalize(text)
  {
    if !HasListMarker(text) {
      var outline := ParseOutline(SplitLines(text));
      if outline != [] {
        var rendered := RenderAll(outline);
        var out := JoinLines(rendered);
        OutlineValid(SplitLines(text), TreePass);
        OutlineValid(SplitLines(text), IndentPass);
        RenderAllAt(outline, 0);
        RenderMarker(outline[0]);
        JoinLinesFirst(rendered);
        MarkerInside(rendered[0], out, 0);
        assert MarkerFrom(out, 0);
      }
    }
  }

  // ---------------------------------------------------------------------
  // When the text comes back unchanged

  /** A line of the text that starts with a list marker makes the whole text come back as is. */
  lemma MarkedLineReturnsInput(text: string, k: nat)
    requires k < |SplitLines(text)| && MarkerAt(SplitLines(text)[k], 0)
    ensures HasListMarker(text) && Normalize(text) == text
  {
    var line := SplitLines(text)[k];
    LineLocated(text, k);
    var p := LineOffset(text, k);
    LineSlice(text, p, line);
    MarkerInside(line, text, p);
    MarkerFromIff(text, 0);
  }

  /** Text made only of whitespace has no list marker anywhere. */
  lemma BlankHasNoMarker(text: string)
    requires forall k :: 0 <= k < |text| ==> IsSpace(text[k])
    ensures !HasListMarker(text)
  {
    forall q: nat | q <= |text| ensures !MarkerAt(text, q) {
      SpanThrough(text, q, |text|, IsSpace);
    }
    MarkerFromIff(text, 0);
  }

  /** A line of whitespace gives no bullet in either pass. */
  lemma BlankLineDropped(line: string)
    requires forall k :: 0 <= k < |line| ==> IsSpace(line[k])
    ensures TreeLine(line).None? && IndentLine(line).None?
  {
    SpanThrough(line, 0, |line|, IsPrefixChar);
    SpanThrough(line, 0, |line|, IsSpace);
  }

  /** Text made only of whitespace comes back as is. */
  lemma BlankTextReturned(text: string)
    requires forall k :: 0 <= k < |text| ==> IsSpace(text[k])
    ensures Normalize(text) == text
  {
    BlankHasNoMarker(text);
    var lines := SplitLines(text);
    forall i | 0 <= i < |lines| ensures ParseLine(TreePass, lines[i]).None? && ParseLine(IndentPass, lines[i]).None? {
      forall k | 0 <= k < |lines[i]| ensures IsSpace(lines[i][k]) {
        LineCharsFromText(text, i, k);
      }
      BlankLineDropped(lines[i]);
    }
    OutlineEmptyIff(lines, TreePass);
    OutlineEmptyIff(lines, IndentPass);
  }

  // ---------------------------------------------------------------------
  // The passes line by line

  /** A pass reads the lines independently: the outline of two blocks of lines
      is the outline of the first followed by the outline of the second. */
  lemma {:induction false} OutlineAppend(a: seq<string>, b: seq<string>, pass: Pass)
    ensures Outline(a + b, pass) == Outline(a, pass) + Outline(b, pass)
    decreases |b|
  {
    if b == [] {
      assert a + b == a;
    } else {
      var b' := b[..|b| - 1];
      assert (a + b)[..|a + b| - 1] == a + b';
      assert (a + b)[|a + b| - 1] == b[|b| - 1];
      OutlineAppend(a, b', pass);
    }
  }

  /** A non-empty sequence is its front followed by its last element. */
  lemma SnocLast<T>(s: seq<T>)
    requires s != []
    ensures s[..|s| - 1] + [s[|s| - 1]] == s
  {
  }

  /** When every line gives a bullet, the outline is those bullets, one per line, in order. */
  lemma {:induction false} OutlineAllKept(lines: seq<string>, pass: Pass, os: seq<OutlineLine>)
    requires |lines| == |os|
    requires forall i :: 0 <= i < |lines| ==> ParseLine(pass, lines[i]) == Some(os[i])
    ensures Outline(lines, pass) == os
    decreases |lines|
  {
    if lines != [] {
      var n := |lines| - 1;
      forall i | 0 <= i < n ensures ParseLine(pass, lines[..n][i]) == Some(os[..n][i]) {
        assert lines[..n][i] == lines[i] && os[..n][i] == os[i];
      }
      OutlineAllKept(lines[..n], pass, os[..n]);
      assert ParseLine(pass, lines[n]) == Some(os[n]);
      SnocLast(os);
    }
  }

  /** Outlining one more line appends what that line gives. */
  lemma OutlineSnoc(lines: seq<string>, l: string, pass: Pass)
    ensures Outline(lines + [l], pass) == Outline(lines, pass) + Emit(ParseLine(pass, l))
  {
    assert (lines + [l])[..|lines|] == lines;
  }

  /** Two lines are outlined in order. */
  lemma OutlineTwo(a: string, b: string, pass: Pass)
    ensures Outline([a, b], pass) == Emit(ParseLine(pass, a)) + Emit(ParseLine(pass, b))
  {
    var one := Outline([a], pass);
    assert one == Emit(ParseLine(pass, a)) by {
      assert [a][..0] == [];
    }
    assert [a, b][..1] == [a];
  }

  /** A pass that keeps both lines outlines them in order. */
  lemma TwoKept(a: string, b: string, oa: OutlineLine, ob: OutlineLine, pass: Pass)
    requires ParseLine(pass, a) == Some(oa) && ParseLine(pass, b) == Some(ob)
    ensures Outline([a, b], pass) == [oa, ob]
  {
    OutlineTwo(a, b, pass);
  }

  /** A pass that keeps all three lines outlines them in order. */
  lemma ThreeKept(a: string, b: string, c: string, oa: OutlineLine, ob: OutlineLine, oc: OutlineLine, pass: Pass)
    requires ParseLine(pass, a) == Some(oa) && ParseLine(pass, b) == Some(ob) && ParseLine(pass, c) == Some(oc)
    ensures Outline([a, b, c], pass) == [oa, ob, oc]
  {
    assert [a, b, c][..2] == [a, b];
    TwoKept(a, b, oa, ob, pass);
  }

  /** A pass that drops both lines finds nothing. */
  lemma TwoDropped(a: string, b: string, pass: Pass)
    requires ParseLine(pass, a).None? && ParseLine(pass, b).None?
    ensures Outline([a, b], pass) == []
  {
    OutlineTwo(a, b, pass);
  }

  /** A pass that finds nothing kept none of the lines. */
  lemma {:induction false} OutlineEmptyDropsAll(lines: seq<string>, pass: Pass)
    requires Outline(lines, pass) == []
    ensures forall i :: 0 <= i < |lines| ==> ParseLine(pass, lines[i]).None?
    decreases |lines|
  {
    if lines != [] {
      var init := lines[..|lines| - 1];
      var last := ParseLine(pass, lines[|lines| - 1]);
      assert Outline(lines, pass) == Outline(init, pass) + Emit(last);
      assert |Outline(init, pass)| + |Emit(last)| == 0;
      OutlineEmptyDropsAll(init, pass);
      forall i | 0 <= i < |lines| ensures ParseLine(pass, lines[i]).None? {
        if i < |init| {
          assert init[i] == lines[i];
          assert ParseLine(pass, init[i]).None?;
        } else {
          assert i == |lines| - 1;
          assert last.None?;
        }
      }
    }
  }

  /** A pass that keeps none of the lines finds nothing. */
  lemma {:induction false} DropsAllOutlineEmpty(lines: seq<string>, pass: Pass)
    requires forall i :: 0 <= i < |lines| ==> ParseLine(pass, lines[i]).None?
    ensures Outline(lines, pass) == []
    decreases |lines|
  {
    if lines != [] {
      var init := lines[..|lines| - 1];
      assert forall i :: 0 <= i < |init| ==> init[i] == lines[i];
      DropsAllOutlineEmpty(init, pass);
      assert ParseLine(pass, lines[|lines| - 1]).None?;
    }
  }

  /** A pass finds nothing exactly when it keeps none of the lines. */
  lemma OutlineEmptyIff(lines: seq<string>, pass: Pass)
    ensures Outline(lines, pass) == [] <==> forall i :: 0 <= i < |lines| ==> ParseLine(pass, lines[i]).None?
  {
    if Outline(lines, pass) == [] {
      OutlineEmptyDropsAll(lines, pass);
    } else if forall i :: 0 <= i < |lines| ==> ParseLine(pass, lines[i]).None? {
      DropsAllOutlineEmpty(lines, pass);
    }
  }

  // ---------------------------------------------------------------------
  // The tree pass's regular expression

  /** The line is a run of `[\s│]`, then a run of `[├└─]`, then whitespace up to e:
      a way for `^([\s│]*)([├└─]*)\s*` to match the first e characters. */
  predicate GlyphsThenSpace(line: string, a: nat, b: nat, e: nat) {
    && a <= b <= e <= |line|
    && (forall k :: 0 <= k < a ==> IsPrefixChar(line[k]))
    && (forall k :: a <= k < b ==> IsConnector(line[k]))
    && (forall k :: b <= k < e ==> IsSpace(line[k]))
  }

  /** Where the greedy groups put the start of `(.*)`. */
  function GreedyContentStart(line: string): nat {
    var a := Span(line, 0, IsPrefixChar);
    var b := Span(line, a, IsConnector);
    Span(line, b, IsSpace)
  }

  /** The greedy groups reach at least as far as any other way of matching them. */
  lemma GreedyFurthest(line: string, a': nat, b': nat, e: nat)
    requires GlyphsThenSpace(line, a', b', e)
    ensures e <= GreedyContentStart(line)
  {
    var a := Span(line, 0, IsPrefixChar);
    SpanThrough(line, 0, a', IsPrefixChar);
    if a' < a {
      assert b' == a';
      SpanThrough(line, 0, e, IsPrefixChar);
    } else {
      GreedyFurthestConnector(line, a, b', e);
    }
  }

  /** The case of `GreedyFurthest` where both prefixes end at the same place. */
  lemma GreedyFurthestConnector(line: string, a: nat, b': nat, e: nat)
    requires a == Span(line, 0, IsPrefixChar) && a <= b' <= e <= |line|
    requires forall k :: a <= k < b' ==> IsConnector(line[k])
    requires forall k :: b' <= k < e ==> IsSpace(line[k])
    ensures e <= GreedyContentStart(line)
  {
    var b := Span(line, a, IsConnector);
    SpanThrough(line, a, b', IsConnector);
    if b' == b {
      SpanThrough(line, b, e, IsSpace);
    }
  }

  /** So when the greedy match fails, every backtracking attempt fails too: the
      regular expression matches whenever some split leaves `(.*)` on one line. */
  lemma TreeMatchComplete(line: string, a': nat, b': nat, e: nat)
    requires GlyphsThenSpace(line, a', b', e) && NoLineTerminator(line[e..])
    ensures MatchTreeLine(line).Some? && |MatchTreeLine(line).value.content| <= |line| - e
  {
    GreedyFurthest(line, a', b', e);
    var c := GreedyContentStart(line);
    forall k | 0 <= k < |line[c..]| ensures !IsLineTerminator(line[c..][k]) {
      assert line[c..][k] == line[e..][c - e + k];
    }
  }

  /** A line of prefix characters, then connectors, then whitespace, and
      nothing else, gives no bullet in the tree pass. */
  lemma GlyphLineDropped(line: string, a: nat, b: nat)
    requires GlyphsThenSpace(line, a, b, |line|)
    ensures TreeLine(line).None?
  {
    TreeMatchComplete(line, a, b, |line|);
  }

  /** A line on one line that the tree pass drops has that shape. */
  lemma DroppedTreeLineIsGlyphs(line: string) returns (a: nat, b: nat)
    requires NoLineTerminator(line) && TreeLine(line).None?
    ensures GlyphsThenSpace(line, a, b, |line|)
  {
    a := Span(line, 0, IsPrefixChar);
    b := Span(line, a, IsConnector);
    var c := Span(line, b, IsSpace);
    SpanFacts(line, 0, IsPrefixChar);
    SpanFacts(line, a, IsConnector);
    SpanFacts(line, b, IsSpace);
    var content := line[c..];
    assert Trim(content) == [];
    assert c == |line|;
  }

  /** A line on one line with any character outside `[\s│├└─]` gives a bullet. */
  lemma ContentLineKept(line: string, k: nat)
    requires NoLineTerminator(line) && k < |line| && !IsPrefixChar(line[k]) && !IsConnector(line[k])
    ensures TreeLine(line).Some?
  {
    if TreeLine(line).None? {
      var a, b := DroppedTreeLineIsGlyphs(line);
    }
  }

  /** A line that starts with content and holds a line terminator fails both
      patterns, since `.` does not match the terminator: it is dropped by both
      passes although it has content. */
  lemma TerminatorLineDropped(line: string, k: nat)
    requires line != [] && !IsPrefixChar(line[0]) && !IsConnector(line[0])
    requires k < |line| && IsLineTerminator(line[k])
    ensures TreeLine(line).None? && IndentLine(line).None?
  {
    SpanUnique(line, 0, 0, IsPrefixChar);
    SpanUnique(line, 0, 0, IsConnector);
    SpanUnique(line, 0, 0, IsSpace);
    assert !OneLineFrom(line, 0);
  }

  /** The indentation pass runs only when every line that stays on one line
      has the shape `[\s│]*[├└─]*\s*`. */
  lemma FallbackOnlyForGlyphLines(lines: seq<string>, i: nat) returns (a: nat, b: nat)
    requires Outline(lines, TreePass) == [] && i < |lines| && NoLineTerminator(lines[i])
    ensures GlyphsThenSpace(lines[i], a, b, |lines[i]|)
  {
    OutlineEmptyDropsAll(lines, TreePass);
    assert ParseLine(TreePass, lines[i]).None?;
    a, b := DroppedTreeLineIsGlyphs(lines[i]);
  }

  // ---------------------------------------------------------------------
  // How the level is counted

  /** A bullet of the tree pass comes from the greedy groups of its line:
      its level is counted from the prefix and connector groups alone and its
      text is the content group, trimmed. */
  lemma TreeLineParts(line: string) returns (m: TreeMatch)
    requires TreeLine(line).Some?
    ensures IsTreeMatch(line, m)
    ensures TreeLine(line).value == OutlineLine(TreeLevel(m.prefix, m.connector), Trim(m.content))
  {
    m := MatchTreeLine(line).value;
    MatchTreeLineGroups(line);
  }

  /** A bullet of the indentation pass: half the length of the whole leading
      `\s` run, and the rest of the line, trimmed. */
  lemma IndentLineParts(line: string) returns (m: IndentMatch)
    requires IndentLine(line).Some?
    ensures IsIndentMatch(line, m)
    ensures IndentLine(line).value == OutlineLine(|m.space| / 2, Trim(m.content))
  {
    m := MatchIndentLine(line).value;
    MatchIndentLineGroups(line);
  }

  /** The tree pattern's match with its three greedy runs named. */
  lemma MatchTreeLineAt(s: string, a: nat, b: nat, c: nat)
    requires a == Span(s, 0, IsPrefixChar) && b == Span(s, a, IsConnector) && c == Span(s, b, IsSpace)
    ensures MatchTreeLine(s) == if OneLineFrom(s, c) then Some(TreeMatch(s[..a], s[a..b], s[c..])) else None
  {
  }

  /** The indentation pattern's match with its run named. */
  lemma MatchIndentLineAt(s: string, n: nat)
    requires n == Span(s, 0, IsSpace)
    ensures MatchIndentLine(s) == if OneLineFrom(s, n) then Some(IndentMatch(s[..n], s[n..])) else None
  {
  }

  lemma OneLineDrop(s: string, n: nat, c: nat)
    requires n + c <= |s|
    ensures OneLineFrom(s, n + c) == OneLineFrom(s[n..], c)
  {
    if !OneLineFrom(s[n..], c) {
      var k :| c <= k < |s[n..]| && IsLineTerminator(s[n..][k]);
      assert s[n + k] == s[n..][k];
    }
  }

  lemma SliceDrop(s: string, n: nat, a: nat, b: nat, c: nat)
    requires n + c <= |s| && a <= b <= c
    ensures s[..n + a] == s[..n] + s[n..][..a]
    ensures s[n + a..n + b] == s[n..][a..b]
    ensures s[n + c..] == s[n..][c..]
  {
  }

  /** The three runs of a line behind n characters of `[\s│]`, read in the whole line. */
  lemma DropSpans(s: string, n: nat, a: nat, b: nat, c: nat)
    requires n <= |s| && forall k :: 0 <= k < n ==> IsPrefixChar(s[k])
    requires a == Span(s[n..], 0, IsPrefixChar) && b == Span(s[n..], a, IsConnector) && c == Span(s[n..], b, IsSpace)
    ensures Span(s, 0, IsPrefixChar) == n + a
    ensures Span(s, n + a, IsConnector) == n + b
    ensures Span(s, n + b, IsSpace) == n + c
  {
    SpanThrough(s, 0, n, IsPrefixChar);
    SpanDrop(s, n, 0, IsPrefixChar);
    SpanDrop(s, n, a, IsConnector);
    SpanDrop(s, n, b, IsSpace);
  }

  /** Leading characters of `[\s│]` join the prefix group; the connector and
      the content groups are those of the rest of the line. */
  lemma MatchTreeDrop(s: string, n: nat)
    requires n <= |s| && forall k :: 0 <= k < n ==> IsPrefixChar(s[k])
    ensures MatchTreeLine(s).Some? == MatchTreeLine(s[n..]).Some?
    ensures MatchTreeLine(s).Some? ==>
      MatchTreeLine(s).value == TreeMatch(s[..n] + MatchTreeLine(s[n..]).value.prefix,
        MatchTreeLine(s[n..]).value.connector, MatchTreeLine(s[n..]).value.content)
  {
    var t := s[n..];
    var a := Span(t, 0, IsPrefixChar);
    var b := Span(t, a, IsConnector);
    var c := Span(t, b, IsSpace);
    DropSpans(s, n, a, b, c);
    MatchTreeLineAt(t, a, b, c);
    MatchTreeLineAt(s, n + a, n + b, n + c);
    OneLineDrop(s, n, c);
    SliceDrop(s, n, a, b, c);
  }

  /** The bullet of a line with leading characters of `[\s│]` is the bullet of
      the rest of the line, its level counted over the longer prefix. */
  lemma TreeLineDrop(s: string, n: nat)
    requires n <= |s| && forall k :: 0 <= k < n ==> IsPrefixChar(s[k])
    ensures TreeLine(s).Some? == TreeLine(s[n..]).Some?
    ensures TreeLine(s).Some? ==>
      TreeLine(s).value == OutlineLine(TreeLevel(s[..n] + MatchTreeLine(s[n..]).value.prefix,
        MatchTreeLine(s[n..]).value.connector), TreeLine(s[n..]).value.text)
  {
    MatchTreeDrop(s, n);
  }

  lemma LevelTwoSpaces(x: string, p: string, c: string)
    requires |x| == 2 && x[0] == ' ' && x[1] == ' '
    ensures TreeLevel(x + p, c) == TreeLevel(p, c) + 1
  {
    assert x + p == [' '] + ([' '] + p);
    CountPrepend(' ', [' '] + p, ' ');
    CountPrepend(' ', p, ' ');
    CountPrepend(' ', [' '] + p, '│');
    CountPrepend(' ', p, '│');
  }

  lemma LevelBar(x: string, p: string, c: string)
    requires x == ['│']
    ensures TreeLevel(x + p, c) == TreeLevel(p, c) + 1
  {
    CountPrepend('│', p, ' ');
    CountPrepend('│', p, '│');
  }

  lemma LevelOtherSpace(x: string, p: string, c: string)
    requires |x| == 1 && x[0] != ' ' && x[0] != '│'
    ensures TreeLevel(x + p, c) == TreeLevel(p, c)
  {
    assert x + p == [x[0]] + p;
    CountPrepend(x[0], p, ' ');
    CountPrepend(x[0], p, '│');
  }

  /** Two more leading spaces put a tree line one level deeper. */
  lemma TwoSpacesOneLevel(s: string)
    requires |s| >= 2 && s[0] == ' ' && s[1] == ' ' && TreeLine(s[2..]).Some?
    ensures TreeLine(s).Some?
    ensures TreeLine(s).value.level == TreeLine(s[2..]).value.level + 1
    ensures TreeLine(s).value.text == TreeLine(s[2..]).value.text
  {
    TreeLineDrop(s, 2);
    var m := MatchTreeLine(s[2..]).value;
    LevelTwoSpaces(s[..2], m.prefix, m.connector);
    var _ := TreeLineParts(s[2..]);
  }

  /** One more leading bar puts a tree line one level deeper. */
  lemma BarOneLevel(s: string)
    requires |s| >= 1 && s[0] == '│' && TreeLine(s[1..]).Some?
    ensures TreeLine(s).Some?
    ensures TreeLine(s).value.level == TreeLine(s[1..]).value.level + 1
    ensures TreeLine(s).value.text == TreeLine(s[1..]).value.text
  {
    TreeLineDrop(s, 1);
    var m := MatchTreeLine(s[1..]).value;
    LevelBar(s[..1], m.prefix, m.connector);
    var _ := TreeLineParts(s[1..]);
  }

  /** Any other leading whitespace, a tab for instance, leaves a tree line's level alone. */
  lemma OtherSpaceNoLevel(s: string)
    requires |s| >= 1 && IsSpace(s[0]) && s[0] != ' ' && TreeLine(s[1..]).Some?
    ensures TreeLine(s) == TreeLine(s[1..])
  {
    TreeLineDrop(s, 1);
    var m := MatchTreeLine(s[1..]).value;
    LevelOtherSpace(s[..1], m.prefix, m.connector);
    var _ := TreeLineParts(s[1..]);
  }

  /** A tree line with no leading `[\s│]` sits at level 1 under a connector, else at level 0. */
  lemma UnindentedLevel(line: string)
    requires TreeLine(line).Some? && !IsPrefixChar(line[0])
    ensures TreeLine(line).value.level == (if IsConnector(line[0]) then 1 else 0)
  {
    MatchTreeLineGroups(line);
  }

  /** The leading run of a line behind n characters of `\s`, read in the whole line. */
  lemma IndentSpanDrop(s: string, n: nat, a: nat)
    requires n <= |s| && forall k :: 0 <= k < n ==> IsSpace(s[k])
    requires a == Span(s[n..], 0, IsSpace)
    ensures Span(s, 0, IsSpace) == n + a
  {
    SpanThrough(s, 0, n, IsSpace);
    SpanDrop(s, n, 0, IsSpace);
  }

  /** Leading `\s` characters join the indentation group; the content is that of the rest. */
  lemma MatchIndentDrop(s: string, n: nat)
    requires n <= |s| && forall k :: 0 <= k < n ==> IsSpace(s[k])
    ensures MatchIndentLine(s).Some? == MatchIndentLine(s[n..]).Some?
    ensures MatchIndentLine(s).Some? ==>
      MatchIndentLine(s).value == IndentMatch(s[..n] + MatchIndentLine(s[n..]).value.space, MatchIndentLine(s[n..]).value.content)
  {
    var t := s[n..];
    var a := Span(t, 0, IsSpace);
    IndentSpanDrop(s, n, a);
    MatchIndentLineAt(t, a);
    MatchIndentLineAt(s, n + a);
    OneLineDrop(s, n, a);
    SliceDrop(s, n, a, a, a);
  }

  /** In the indentation pass every two leading `\s` characters, tabs included, make one level. */
  lemma IndentDeeper(s: string, n: nat)
    requires 2 * n <= |s| && (forall k :: 0 <= k < 2 * n ==> IsSpace(s[k])) && IndentLine(s[2 * n..]).Some?
    ensures IndentLine(s).Some?
    ensures IndentLine(s).value.level == IndentLine(s[2 * n..]).value.level + n
    ensures IndentLine(s).value.text == IndentLine(s[2 * n..]).value.text
  {
    MatchIndentDrop(s, 2 * n);
    var m := MatchIndentLine(s[2 * n..]).value;
    IndentLineOf(s[2 * n..], m);
    IndentLineOf(s, MatchIndentLine(s).value);
    assert |s[..2 * n] + m.space| == 2 * n + |m.space|;
    assert (2 * n + |m.space|) / 2 == n + |m.space| / 2;
  }

  // ---------------------------------------------------------------------
  // When no line carries a marker

  /** A line whose leading whitespace is followed by a character that can
      start neither `[-*+]` nor `\d+\.`. */
  predicate PlainStart(line: string) {
    var n := Span(line, 0, IsSpace);
    n < |line| && !IsListMarker(line[n]) && !IsDigit(line[n])
  }

  /** The marker test at n + p reads the text behind position n. */
  lemma MarkerAtDrop(t: string, n: nat, p: nat)
    requires n + p <= |t|
    ensures MarkerAt(t, n + p) == MarkerAt(t[n..], p)
  {
    var y := t[n..];
    var q := Span(y, p, IsSpace);
    SpanDrop(t, n, p, IsSpace);
    SpanDrop(t, n, q, IsDigit);
  }

  /** The search from n + p, right after a "\n", is the search in the text behind it. */
  lemma {:induction false} MarkerFromDrop(t: string, n: nat, p: nat)
    requires 0 < n && n + p <= |t| && t[n - 1] == '\n'
    ensures MarkerFrom(t, n + p) == MarkerFrom(t[n..], p)
    decreases |t| - n - p
  {
    MarkerAtDrop(t, n, p);
    if p > 0 {
      assert t[n..][p - 1] == t[n + p - 1];
    }
    if n + p < |t| {
      MarkerFromDrop(t, n, p + 1);
    }
  }

  /** The search passes over positions that do not follow a line terminator. */
  lemma {:induction false} SkipNonStarts(t: string, p: nat, e: nat)
    requires 0 < p <= e <= |t|
    requires forall k :: p - 1 <= k < e - 1 ==> !IsLineTerminator(t[k])
    ensures MarkerFrom(t, p) == MarkerFrom(t, e)
    decreases e - p
  {
    if p < e {
      SkipNonStarts(t, p + 1, e);
    }
  }

  /** A text that begins with a plain line has no marker at its start. */
  lemma PlainStartNoMarker(line: string, t: string)
    requires |line| <= |t| && t[..|line|] == line && PlainStart(line)
    ensures !MarkerAt(t, 0)
  {
    SpanInside(line, t, 0, 0, IsSpace);
    var n := Span(line, 0, IsSpace);
    assert t[n] == line[n];
  }

  /** A plain first line gives no marker: the search moves on to the end of that line. */
  lemma PlainLinePassed(l: string, t: string)
    requires 0 < |l| <= |t| && t[..|l|] == l && NoLineTerminator(l) && PlainStart(l)
    ensures !MarkerFrom(t, 0) <==> !MarkerFrom(t, |l|)
  {
    PlainStartNoMarker(l, t);
    assert forall k :: 0 <= k < |l| - 1 ==> t[k] == l[k];
    SkipNonStarts(t, 1, |l|);
  }

  /** A plain first line followed by "\n": the search goes on in the rest of the text. */
  lemma PlainLineSkipped(l: string, t: string)
    requires |l| < |t| && t[..|l|] == l && t[|l|] == '\n' && NoLineTerminator(l) && PlainStart(l)
    ensures !MarkerFrom(t, 0) <==> !MarkerFrom(t[|l| + 1..], 0)
  {
    PlainLinePassed(l, t);
    assert !AtLineStart(t, |l|) by {
      assert t[|l| - 1] == l[|l| - 1];
    }
    assert MarkerFrom(t, |l|) == MarkerFrom(t, |l| + 1);
    MarkerFromDrop(t, |l| + 1, 0);
  }

  /** A join of two or more lines: the first line, a "\n", then the join of the rest. */
  lemma JoinLinesCons(ls: seq<string>)
    requires |ls| >= 2
    ensures var t := JoinLines(ls);
      |ls[0]| < |t| && t[..|ls[0]|] == ls[0] && t[|ls[0]|] == '\n' && t[|ls[0]| + 1..] == JoinLines(ls[1..])
  {
    assert JoinLines(ls) == ls[0] + "\n" + JoinLines(ls[1..]);
  }

  /** Lines that each stay on one line and start plainly, joined: the search finds nothing. */
  lemma {:induction false} NoMarkerInPlainLines(ls: seq<string>)
    requires |ls| >= 1
    requires forall i :: 0 <= i < |ls| ==> NoLineTerminator(ls[i]) && PlainStart(ls[i])
    ensures !HasListMarker(JoinLines(ls))
    decreases |ls|
  {
    var l := ls[0];
    assert NoLineTerminator(l) && PlainStart(l);
    if |ls| == 1 {
      PlainLinePassed(l, JoinLines(ls));
    } else {
      JoinLinesCons(ls);
      PlainLineSkipped(l, JoinLines(ls));
      NoMarkerInPlainLines(ls[1..]);
    }
  }
}
