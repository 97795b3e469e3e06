/** The text-to-outline normaliser `smartTextToMarkdown`: it turns pasted text
    (tree drawings with │ ├ └ ─, indented lists, or markdown) into a nested
    markdown bullet list. The decision cascade, first rule that applies wins:
      1. some line already starts with a list marker: the text is returned as is;
      2. the tree pass: every line with content becomes a bullet whose level is
         counted from its own prefix of spaces and bars and its connector glyphs;
      3. only if the tree pass emitted nothing, the indentation pass;
      4. only if that emitted nothing too, the text is returned as is.
    `Normalize` is the specification; `SmartTextToMarkdown` is the loop the
    source runs, proved equal to it. */
module SmartText {
  import opened JsText

  /** One bullet of the canonical outline: its depth and its text. */
  datatype OutlineLine = OutlineLine(level: nat, text: string)

  /** The two per-line passes of the cascade. */
  datatype Pass = TreePass | IndentPass

  predicate IsBar(c: char) { c == '│' }
  predicate IsConnector(c: char) { c == '├' || c == '└' || c == '─' }
  /** The class `[\s│]` of the tree pass's prefix. */
  predicate IsPrefixChar(c: char) { IsSpace(c) || IsBar(c) }
  predicate IsListMarker(c: char) { c == '-' || c == '*' || c == '+' }
  predicate IsAsciiSpace(c: char) { c == ' ' }

  // ---------------------------------------------------------------------
  // Step 1: the list-marker test /^\s*[-*+]\s+|^\s*\d+\.\s+/m

  /** One of the two alternatives matches at p. `\s*` is followed by a
      character outside `\s`, so it can only end where the greedy run ends;
      the same holds for `\d+` before the dot. */
  predicate MarkerAt(t: string, p: nat)
    requires p <= |t|
  {
    var q := Span(t, p, IsSpace);
    (q + 1 < |t| && IsListMarker(t[q]) && IsSpace(t[q + 1]))
    || (var r := Span(t, q, IsDigit); q < r && r + 1 < |t| && t[r] == '.' && IsSpace(t[r + 1]))
  }

  /** The regular expression's search: try `^` at p, p + 1, ... */
  predicate MarkerFrom(t: string, p: nat)
    requires p <= |t|
    decreases |t| - p
  {
    (AtLineStart(t, p) && MarkerAt(t, p)) || (p < |t| && MarkerFrom(t, p + 1))
  }

  predicate HasListMarker(t: string) { MarkerFrom(t, 0) }

  /** The search succeeds exactly when some line start carries a marker. */
  lemma {:induction false} MarkerFromIff(t: string, p: nat)
    requires p <= |t|
    ensures MarkerFrom(t, p) <==> exists q: nat :: p <= q <= |t| && AtLineStart(t, q) && MarkerAt(t, q)
    decreases |t| - p
  {
    if p < |t| {
      MarkerFromIff(t, p + 1);
    }
  }

  /** A marker that a line shows on its own is a marker of any text holding that line. */
  lemma MarkerInside(line: string, t: string, p: nat)
    requires p + |line| <= |t| && t[p..p + |line|] == line
    requires MarkerAt(line, 0)
    ensures MarkerAt(t, p)
  {
    var q := Span(line, 0, IsSpace);
    assert q < |line|;
    SpanInside(line, t, p, 0, IsSpace);
    if q + 1 < |line| && IsListMarker(line[q]) && IsSpace(line[q + 1]) {
      BulletInside(line, t, p, q);
    } else {
      NumberInside(line, t, p, q);
    }
  }

  /** The `[-*+]\s+` alternative carries over from the line to the text. */
  lemma BulletInside(line: string, t: string, p: nat, q: nat)
    requires p + |line| <= |t| && t[p..p + |line|] == line
    requires p <= |t| && Span(t, p, IsSpace) == p + q
    requires q + 1 < |line| && IsListMarker(line[q]) && IsSpace(line[q + 1])
    ensures MarkerAt(t, p)
  {
    assert t[p + q] == line[q] && t[p + q + 1] == line[q + 1];
  }

  /** The `\d+\.\s+` alternative carries over from the line to the text. */
  lemma NumberInside(line: string, t: string, p: nat, q: nat)
    requires p + |line| <= |t| && t[p..p + |line|] == line
    requires q <= |line| && p <= |t| && Span(t, p, IsSpace) == p + q
    requires var r := Span(line, q, IsDigit); q < r && r + 1 < |line| && line[r] == '.' && IsSpace(line[r + 1])
    ensures MarkerAt(t, p)
  {
    var r := Span(line, q, IsDigit);
    SpanInside(line, t, p, q, IsDigit);
    assert t[p + r] == line[r] && t[p + r + 1] == line[r + 1];
  }

  // ---------------------------------------------------------------------
  // Step 2: the tree pass /^([\s│]*)([├└─]*)\s*(.*)$/

  /** The three capture groups of the tree pass's match. */
  datatype TreeMatch = TreeMatch(prefix: string, connector: string, content: string)

  predicate NoLineTerminator(s: string) {
    forall k :: 0 <= k < |s| ==> !IsLineTerminator(s[k])
  }

  /** From position i on, s stays on one line: what `(.*)$` needs to match there. */
  predicate OneLineFrom(s: string, i: nat) {
    forall k :: i <= k < |s| ==> !IsLineTerminator(s[k])
  }

  /** m splits line into the groups of a greedy match: the prefix is the
      longest run of `[\s│]`, the connector the longest run of `[├└─]` after
      it, then `\s*`, then the content, which holds no line terminator. */
  predicate IsTreeMatch(line: string, m: TreeMatch) {
    var n1 := |m.prefix|;
    var n2 := n1 + |m.connector|;
    var n3 := |line| - |m.content|;
    && n2 <= n3
    && line[..n1] == m.prefix && line[n1..n2] == m.connector && line[n3..] == m.content
    && (forall k :: 0 <= k < n1 ==> IsPrefixChar(line[k])) && (n1 < |line| ==> !IsPrefixChar(line[n1]))
    && (forall k :: n1 <= k < n2 ==> IsConnector(line[k])) && (n2 < |line| ==> !IsConnector(line[n2]))
    && (forall k :: n2 <= k < n3 ==> IsSpace(line[k]))
    && (m.content != [] ==> !IsSpace(m.content[0]))
    && NoLineTerminator(m.content)
  }

  /** The match of one line. Each group is greedy, and the greedy choice
      reaches the furthest possible start of `(.*)`; so the match fails
      exactly when that content holds a character `.` does not match. */
  function MatchTreeLine(line: string): (m: Option<TreeMatch>)
    ensures NoLineTerminator(line) ==> m.Some?
    ensures m.Some? ==> NoLineTerminator(m.value.content)
  {
    var a := Span(line, 0, IsPrefixChar);
    var b := Span(line, a, IsConnector);
    var c := Span(line, b, IsSpace);
    if OneLineFrom(line, c) then Some(TreeMatch(line[..a], line[a..b], line[c..])) else None
  }

  /** A successful match splits the line into greedy groups. */
  lemma MatchTreeLineGroups(line: string)
    ensures MatchTreeLine(line).Some? ==> IsTreeMatch(line, MatchTreeLine(line).value)
  {
    var a := Span(line, 0, IsPrefixChar);
    var b := Span(line, a, IsConnector);
    SpanFacts(line, 0, IsPrefixChar);
    SpanFacts(line, a, IsConnector);
    SpanFacts(line, b, IsSpace);
  }

  /** The level of a tree line: two spaces or one bar per step, plus one for a connector. */
  function TreeLevel(prefix: string, connector: string): nat {
    (if prefix != [] then Count(prefix, ' ') / 2 + Count(prefix, '│') else 0)
    + (if connector != [] then 1 else 0)
  }

  /** A bullet's text: non-empty, trimmed, on one line. */
  predicate ValidText(t: string) {
    t != [] && !IsSpace(t[0]) && !IsSpace(t[|t| - 1]) && NoLineTerminator(t)
  }

  /** Trimming text that stays on one line leaves a valid text or nothing. */
  lemma TrimValid(s: string)
    requires NoLineTerminator(s)
    ensures Trim(s) == [] || ValidText(Trim(s))
  {
    var r := Trim(s);
    var i := TrimSlice(s);
    forall k | 0 <= k < |r| ensures !IsLineTerminator(r[k]) {
      assert r[k] == s[i + k];
    }
  }

  /** What the tree pass keeps of one line. */
  function TreeLine(line: string): (o: Option<OutlineLine>)
    ensures o.Some? ==> ValidText(o.value.text)
  {
    match MatchTreeLine(line)
    case None => None
    case Some(m) =>
      var text := Trim(m.content);
      TrimValid(m.content);
      if text == [] then None else Some(OutlineLine(TreeLevel(m.prefix, m.connector), text))
  }

  /** A matched line with content yields its bullet. */
  lemma TreeLineOf(line: string, m: TreeMatch)
    requires MatchTreeLine(line) == Some(m) && Trim(m.content) != []
    ensures TreeLine(line) == Some(OutlineLine(TreeLevel(m.prefix, m.connector), Trim(m.content)))
  {
  }

  // ---------------------------------------------------------------------
  // Step 3: the indentation pass /^(\s*)(.*)$/

  /** The two capture groups of the indentation pass's match. */
  datatype IndentMatch = IndentMatch(space: string, content: string)

  /** m splits line into its leading `\s` run and the rest, which holds no line terminator. */
  predicate IsIndentMatch(line: string, m: IndentMatch) {
    && m.space + m.content == line
    && (forall k :: 0 <= k < |m.space| ==> IsSpace(m.space[k]))
    && (m.content != [] ==> !IsSpace(m.content[0]))
    && NoLineTerminator(m.content)
  }

  function MatchIndentLine(line: string): (m: Option<IndentMatch>)
    ensures NoLineTerminator(line) ==> m.Some?
    ensures m.Some? ==> NoLineTerminator(m.value.content)
  {
    var n := Span(line, 0, IsSpace);
    if OneLineFrom(line, n) then Some(IndentMatch(line[..n], line[n..])) else None
  }

  /** A successful match splits the line into its indentation and its content. */
  lemma MatchIndentLineGroups(line: string)
    ensures MatchIndentLine(line).Some? ==> IsIndentMatch(line, MatchIndentLine(line).value)
  {
    SpanFacts(line, 0, IsSpace);
  }

  /** What the indentation pass keeps of one line: every `\s` counts, tabs included. */
  function IndentLine(line: string): (o: Option<OutlineLine>)
    ensures o.Some? ==> ValidText(o.value.text)
  {
    match MatchIndentLine(line)
    case None => None
    case Some(m) =>
      var text := Trim(m.content);
      TrimValid(m.content);
      if text == [] then None else Some(OutlineLine(|m.space| / 2, text))
  }

  lemma IndentLineOf(line: string, m: IndentMatch)
    requires MatchIndentLine(line) == Some(m) && Trim(m.content) != []
    ensures IndentLine(line) == Some(OutlineLine(|m.space| / 2, Trim(m.content)))
  {
  }

  function ParseLine(pass: Pass, line: string): (o: Option<OutlineLine>)
    ensures o.Some? ==> ValidText(o.value.text)
  {
    match pass
    case TreePass => TreeLine(line)
    case IndentPass => IndentLine(line)
  }

  function Emit(o: Option<OutlineLine>): seq<OutlineLine> {
    if o.Some? then [o.value] else []
  }

  /** The bullets one pass extracts from the lines, in their order. */
  function Outline(lines: seq<string>, pass: Pass): (r: seq<OutlineLine>)
    ensures |r| <= |lines|
    decreases |lines|
  {
    if lines == [] then []
    else Outline(lines[..|lines| - 1], pass) + Emit(ParseLine(pass, lines[|lines| - 1]))
  }

  lemma OutlineStep(lines: seq<string>, i: nat, pass: Pass)
    requires i < |lines|
    ensures Outline(lines[..i + 1], pass) == Outline(lines[..i], pass) + Emit(ParseLine(pass, lines[i]))
  {
    assert lines[..i + 1][..i] == lines[..i];
  }

  /** Every bullet a pass extracts has a valid text. */
  lemma {:induction false} OutlineValid(lines: seq<string>, pass: Pass)
    ensures forall i :: 0 <= i < |Outline(lines, pass)| ==> ValidText(Outline(lines, pass)[i].text)
    decreases |lines|
  {
    if lines != [] {
      OutlineValid(lines[..|lines| - 1], pass);
    }
  }

  /** Steps 2 and 3: the indentation pass is consulted only when the tree pass found nothing. */
  function ParseOutline(lines: seq<string>): seq<OutlineLine> {
    var tree := Outline(lines, TreePass);
    if tree != [] then tree else Outline(lines, IndentPass)
  }

  // ---------------------------------------------------------------------
  // Rendering and the whole cascade

  /** `"  ".repeat(n)`. */
  function Indent(n: nat): (r: string)
    ensures |r| == 2 * n
    ensures forall k :: 0 <= k < |r| ==> r[k] == ' '
  {
    if n == 0 then "" else "  " + Indent(n - 1)
  }

  /** One canonical markdown line. */
  function Render(o: OutlineLine): string {
    Indent(o.level) + "- " + o.text
  }

  function RenderAll(os: seq<OutlineLine>): (r: seq<string>)
    ensures |r| == |os|
    decreases |os|
  {
    if os == [] then [] else RenderAll(os[..|os| - 1]) + [Render(os[|os| - 1])]
  }

  lemma {:induction false} RenderAllAt(os: seq<OutlineLine>, i: nat)
    requires i < |os|
    ensures RenderAll(os)[i] == Render(os[i])
    decreases |os|
  {
    if i < |os| - 1 {
      RenderAllAt(os[..|os| - 1], i);
    }
  }

  lemma RenderAllEmit(os: seq<OutlineLine>, o: Option<OutlineLine>)
    ensures RenderAll(os + Emit(o)) == RenderAll(os) + (if o.Some? then [Render(o.value)] else [])
  {
    if o.Some? {
      assert (os + [o.value])[..|os|] == os;
    } else {
      assert os + Emit(o) == os;
    }
  }

  /** A line without a bullet leaves the rendered outline as it was. */
  lemma OutlineSkipStep(lines: seq<string>, i: nat, pass: Pass)
    requires i < |lines| && ParseLine(pass, lines[i]).None?
    ensures RenderAll(Outline(lines[..i + 1], pass)) == RenderAll(Outline(lines[..i], pass))
  {
    OutlineStep(lines, i, pass);
    RenderAllEmit(Outline(lines[..i], pass), ParseLine(pass, lines[i]));
  }

  /** A line with a bullet appends the bullet's rendering to the rendered outline. */
  lemma OutlineBulletStep(lines: seq<string>, i: nat, pass: Pass, o: OutlineLine)
    requires i < |lines| && ParseLine(pass, lines[i]) == Some(o)
    ensures RenderAll(Outline(lines[..i + 1], pass)) == RenderAll(Outline(lines[..i], pass)) + [Render(o)]
  {
    OutlineStep(lines, i, pass);
    RenderAllEmit(Outline(lines[..i], pass), ParseLine(pass, lines[i]));
  }

  /** The specification of `smartTextToMarkdown`. */
  function Normalize(text: string): string {
    if HasListMarker(text) then text
    else
      var outline := ParseOutline(SplitLines(text));
      if outline == [] then text else JoinLines(RenderAll(outline))
  }

  /** The source's first loop: the tree pass over every line. */
  method TreePassLoop(lines: seq<string>) returns (result: seq<string>)
    ensures result == RenderAll(Outline(lines, TreePass))
  {
    result := [];
    for i := 0 to |lines|
      invariant result == RenderAll(Outline(lines[..i], TreePass))
    {
      var m := MatchTreeLine(lines[i]);
      if m.None? {
        OutlineSkipStep(lines, i, TreePass);
        continue;
      }
      var TreeMatch(prefix, tree, content) := m.value;
      if Trim(content) == [] {
        OutlineSkipStep(lines, i, TreePass);
        continue;
      }
      var level := 0;
      if prefix != [] {
        level := Count(prefix, ' ') / 2 + Count(prefix, '│');
      }
      if tree != [] {
        level := level + 1;
      }
      assert level == TreeLevel(prefix, tree);
      TreeLineOf(lines[i], m.value);
      OutlineBulletStep(lines, i, TreePass, OutlineLine(level, Trim(content)));
      result := result + [Indent(level) + "- " + Trim(content)];
    }
    assert lines[..|lines|] == lines;
  }

  /** The source's second loop: the indentation pass over every line. */
  method IndentPassLoop(lines: seq<string>) returns (result: seq<string>)
    ensures result == RenderAll(Outline(lines, IndentPass))
  {
    result := [];
    for i := 0 to |lines|
      invariant result == RenderAll(Outline(lines[..i], IndentPass))
    {
      var m := MatchIndentLine(lines[i]);
      if m.None? {
        OutlineSkipStep(lines, i, IndentPass);
        continue;
      }
      var IndentMatch(space, content) := m.value;
      if Trim(content) == [] {
        OutlineSkipStep(lines, i, IndentPass);
        continue;
      }
      var level := |space| / 2;
      IndentLineOf(lines[i], m.value);
      OutlineBulletStep(lines, i, IndentPass, OutlineLine(level, Trim(content)));
      result := result + [Indent(level) + "- " + Trim(content)];
    }
    assert lines[..|lines|] == lines;
  }

  /** The whole function: the marker test, the two loops, the fallback to the input. */
  method SmartTextToMarkdown(text: string) returns (r: string)
    ensures r == Normalize(text)
  {
    if HasListMarker(text) {
      return text;
    }
    var lines := SplitLines(text);
    var result := TreePassLoop(lines);
    if result == [] {
      result := IndentPassLoop(lines);
    }
    if result == [] {
      return text;
    }
    return JoinLines(result);
  }
}
