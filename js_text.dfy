/** String primitives of the JavaScript runtime that the normaliser relies on:
    the `\s` character class and the line terminators of its regular
    expressions, `split(/\r?\n/)`, `join("\n")` and `trim()`.
    A JavaScript string is modelled as a sequence of characters; every
    character these primitives inspect lies in the Basic Multilingual Plane,
    so UTF-16 code units and characters agree on them. */
module JsText {

  /** A value that may be absent: a failed match, a dropped line. */
  datatype Option<T> = None | Some(value: T)

  /** `\s`: the WhiteSpace and LineTerminator characters of ECMAScript.
      `String.prototype.trim` strips exactly the same set. */
  predicate IsSpace(c: char) {
    c == '\t' || c == '\n' || c == '\U{000B}' || c == '\U{000C}' || c == '\r' || c == ' '
    || c == '\U{00A0}' || c == '\U{1680}' || ('\U{2000}' <= c <= '\U{200A}')
    || c == '\U{2028}' || c == '\U{2029}' || c == '\U{202F}' || c == '\U{205F}'
    || c == '\U{3000}' || c == '\U{FEFF}'
  }

  /** The characters that `.` does not match and after which `^` matches in multiline mode. */
  predicate IsLineTerminator(c: char) {
    c == '\n' || c == '\r' || c == '\U{2028}' || c == '\U{2029}'
  }

  /** `\d`: ASCII digits only. */
  predicate IsDigit(c: char) { '0' <= c <= '9' }

  predicate IsNotNewline(c: char) { c != '\n' }

  /** Position p is where `^` matches under the `m` flag. */
  predicate AtLineStart(s: string, p: nat) {
    p == 0 || (p <= |s| && IsLineTerminator(s[p - 1]))
  }

  /** End of the longest run of characters of class `cls` starting at i:
      what a greedy `[cls]*` consumes. */
  function Span(s: string, i: nat, cls: char -> bool): (j: nat)
    requires i <= |s|
    ensures i <= j <= |s|
    decreases |s| - i
  {
    if i < |s| && cls(s[i]) then Span(s, i + 1, cls) else i
  }

  /** The run is of class `cls` throughout and is followed by a character outside it. */
  lemma {:induction false} SpanFacts(s: string, i: nat, cls: char -> bool)
    requires i <= |s|
    ensures forall k :: i <= k < Span(s, i, cls) ==> cls(s[k])
    ensures Span(s, i, cls) < |s| ==> !cls(s[Span(s, i, cls)])
    decreases |s| - i
  {
    if i < |s| && cls(s[i]) {
      SpanFacts(s, i + 1, cls);
    }
  }

  /** Conversely, a run of class characters followed by a character outside the class is the span. */
  lemma SpanUnique(s: string, i: nat, j: nat, cls: char -> bool)
    requires i <= j <= |s|
    requires forall k :: i <= k < j ==> cls(s[k])
    requires j < |s| ==> !cls(s[j])
    ensures Span(s, i, cls) == j
  {
    SpanThrough(s, i, j, cls);
  }

  /** A span read inside a line is the same span read in any text holding that line. */
  lemma {:induction false} SpanInside(line: string, t: string, p: nat, i: nat, cls: char -> bool)
    requires p + |line| <= |t| && t[p..p + |line|] == line
    requires i <= |line| && Span(line, i, cls) < |line|
    ensures Span(t, p + i, cls) == p + Span(line, i, cls)
    decreases |line| - i
  {
    assert t[p + i] == line[i];
    if cls(line[i]) {
      SpanInside(line, t, p, i + 1, cls);
    }
  }

  /** Putting a string in front shifts every span behind it. */
  lemma {:induction false} SpanShift(x: string, s: string, i: nat, cls: char -> bool)
    requires i <= |s|
    ensures Span(x + s, |x| + i, cls) == |x| + Span(s, i, cls)
    decreases |s| - i
  {
    assert i < |s| ==> (x + s)[|x| + i] == s[i];
    if i < |s| && cls(s[i]) {
      SpanShift(x, s, i + 1, cls);
    }
  }

  /** The same, read from the other side: a span behind position n of s is a span of s[n..], shifted. */
  lemma SpanDrop(s: string, n: nat, i: nat, cls: char -> bool)
    requires n + i <= |s|
    ensures Span(s, n + i, cls) == n + Span(s[n..], i, cls)
  {
    assert s == s[..n] + s[n..];
    SpanShift(s[..n], s[n..], i, cls);
  }

  /** A span that starts on a run of class characters passes over all of it. */
  lemma {:induction false} SpanThrough(s: string, i: nat, j: nat, cls: char -> bool)
    requires i <= j <= |s|
    requires forall k :: i <= k < j ==> cls(s[k])
    ensures Span(s, i, cls) == Span(s, j, cls)
    decreases j - i
  {
    if i < j {
      SpanThrough(s, i + 1, j, cls);
    }
  }

  /** Number of occurrences of c in s: `(s.match(/c/g) || []).length`. */
  function Count(s: string, c: char): (n: nat)
    ensures n <= |s|
    ensures n == 0 <==> c !in s
  {
    if s == [] then 0 else (if s[0] == c then 1 else 0) + Count(s[1..], c)
  }

  lemma CountPrepend(x: char, s: string, c: char)
    ensures Count([x] + s, c) == (if x == c then 1 else 0) + Count(s, c)
  {
    assert ([x] + s)[1..] == s;
  }

  /** `s.split(/\r?\n/)`: cut at every "\n", dropping one "\r" right before it. */
  function SplitLines(s: string): (ls: seq<string>)
    ensures |ls| >= 1
    decreases |s|
  {
    var j := Span(s, 0, IsNotNewline);
    if j == |s| then [s]
    else [if j > 0 && s[j - 1] == '\r' then s[..j - 1] else s[..j]] + SplitLines(s[j + 1..])
  }

  /** `ls.join("\n")`. */
  function JoinLines(ls: seq<string>): string {
    if |ls| == 0 then ""
    else if |ls| == 1 then ls[0]
    else ls[0] + "\n" + JoinLines(ls[1..])
  }

  /** The first step of `SplitLines`: the piece before the first "\n", then the rest. */
  lemma SplitLinesStep(s: string, j: nat)
    requires j == Span(s, 0, IsNotNewline) && j < |s|
    ensures s[j] == '\n'
    ensures SplitLines(s) == [if j > 0 && s[j - 1] == '\r' then s[..j - 1] else s[..j]] + SplitLines(s[j + 1..])
  {
    SpanFacts(s, 0, IsNotNewline);
  }

  /** The first line of a split is a prefix of the text. */
  lemma FirstLineIsPrefix(s: string)
    ensures |SplitLines(s)[0]| <= |s| && s[..|SplitLines(s)[0]|] == SplitLines(s)[0]
  {
    var j := Span(s, 0, IsNotNewline);
    if j < |s| {
      SplitLinesStep(s, j);
    }
  }

  /** Where line k of `SplitLines(s)` begins in s. */
  function LineOffset(s: string, k: nat): nat
    requires k < |SplitLines(s)|
    decreases |s|
  {
    if k == 0 then 0
    else
      var j := Span(s, 0, IsNotNewline);
      assert j < |s|;
      SplitLinesStep(s, j);
      j + 1 + LineOffset(s[j + 1..], k - 1)
  }

  predicate LineAt(s: string, p: nat, line: string) {
    AtLineStart(s, p) && p + |line| <= |s| && forall i :: 0 <= i < |line| ==> s[p + i] == line[i]
  }

  /** The line found at p is the slice of s there. */
  lemma LineSlice(s: string, p: nat, line: string)
    requires LineAt(s, p, line)
    ensures s[p..p + |line|] == line
  {
  }

  /** A line of the text after a "\n" is a line of the whole text. */
  lemma LineAfterNewline(s: string, j: nat, p: nat, line: string)
    requires j < |s| && s[j] == '\n'
    requires LineAt(s[j + 1..], p, line)
    ensures LineAt(s, j + 1 + p, line)
  {
    if p > 0 {
      assert s[j + p] == s[j + 1..][p - 1];
    }
    forall i | 0 <= i < |line| ensures s[j + 1 + p + i] == line[i] {
      assert s[j + 1 + p + i] == s[j + 1..][p + i];
    }
  }

  /** Line k of the text is line k - 1 of the text after the first "\n", shifted past it. */
  lemma LineTail(s: string, k: nat)
    requires 0 < k < |SplitLines(s)|
    ensures Span(s, 0, IsNotNewline) < |s|
    ensures var j := Span(s, 0, IsNotNewline);
      s[j] == '\n' && k - 1 < |SplitLines(s[j + 1..])| &&
      SplitLines(s)[k] == SplitLines(s[j + 1..])[k - 1] &&
      LineOffset(s, k) == j + 1 + LineOffset(s[j + 1..], k - 1)
  {
    SplitLinesStep(s, Span(s, 0, IsNotNewline));
  }

  /** The first line sits at the start of the text. */
  lemma FirstLineAt(s: string)
    ensures LineAt(s, 0, SplitLines(s)[0])
  {
    FirstLineIsPrefix(s);
    var line := SplitLines(s)[0];
    assert forall i :: 0 <= i < |line| ==> s[i] == s[..|line|][i];
  }

  /** Where line k - 1 sits in the text after the first "\n", line k sits in the text. */
  lemma NextLineAt(s: string, k: nat)
    requires 0 < k < |SplitLines(s)|
    requires var j := Span(s, 0, IsNotNewline);
      j < |s| && k - 1 < |SplitLines(s[j + 1..])| &&
      LineAt(s[j + 1..], LineOffset(s[j + 1..], k - 1), SplitLines(s[j + 1..])[k - 1])
    ensures LineAt(s, LineOffset(s, k), SplitLines(s)[k])
  {
    LineTail(s, k);
    var j := Span(s, 0, IsNotNewline);
    LineAfterNewline(s, j, LineOffset(s[j + 1..], k - 1), SplitLines(s[j + 1..])[k - 1]);
  }

  /** Line k of `SplitLines(s)` sits in s at a position where `^` matches. */
  lemma {:induction false} LineLocated(s: string, k: nat)
    requires k < |SplitLines(s)|
    ensures LineAt(s, LineOffset(s, k), SplitLines(s)[k])
    decreases |s|
  {
    if k == 0 {
      FirstLineAt(s);
    } else {
      LineTail(s, k);
      var j := Span(s, 0, IsNotNewline);
      LineLocated(s[j + 1..], k - 1);
      NextLineAt(s, k);
    }
  }

  /** Every character of every line comes from the text. */
  lemma LineCharsFromText(s: string, k: nat, i: nat)
    requires k < |SplitLines(s)| && i < |SplitLines(s)[k]|
    ensures SplitLines(s)[k][i] in s
  {
    LineLocated(s, k);
    var line := SplitLines(s)[k];
    var p := LineOffset(s, k);
    assert s[p + i] == line[i];
  }

  predicate NoCrLf(s: string) {
    forall k :: 0 <= k < |s| - 1 ==> !(s[k] == '\r' && s[k + 1] == '\n')
  }

  /** Joining the pieces restores the text, unless a "\r\n" lost its "\r". */
  lemma {:induction false} JoinSplit(s: string)
    requires NoCrLf(s)
    ensures JoinLines(SplitLines(s)) == s
    decreases |s|
  {
    var j := Span(s, 0, IsNotNewline);
    SpanFacts(s, 0, IsNotNewline);
    if j < |s| {
      var rest := s[j + 1..];
      assert NoCrLf(rest) by {
        forall k | 0 <= k < |rest| - 1 ensures !(rest[k] == '\r' && rest[k + 1] == '\n') {
          assert rest[k] == s[j + 1 + k] && rest[k + 1] == s[j + 2 + k];
        }
      }
      JoinSplit(rest);
      assert j > 0 ==> s[j - 1] != '\r';
      assert s == s[..j] + "\n" + rest;
    }
  }

  /** A line that splitting gives back whole: no "\n" in it, no "\r" at its end. */
  predicate SplitSafe(line: string) {
    (forall i :: 0 <= i < |line| ==> line[i] != '\n') && (line != [] ==> line[|line| - 1] != '\r')
  }

  /** Splitting a joined sequence of safe lines gives back the lines. */
  lemma {:induction false} SplitJoin(ls: seq<string>)
    requires |ls| >= 1
    requires forall k :: 0 <= k < |ls| ==> SplitSafe(ls[k])
    ensures SplitLines(JoinLines(ls)) == ls
    decreases |ls|
  {
    var l := ls[0];
    var s := JoinLines(ls);
    var j := Span(s, 0, IsNotNewline);
    SpanFacts(s, 0, IsNotNewline);
    if |ls| == 1 {
      assert s == l;
      assert j == |s|;
    } else {
      assert s == l + "\n" + JoinLines(ls[1..]);
      assert s[|l|] == '\n';
      assert j == |l|;
      assert l != [] ==> s[j - 1] == l[|l| - 1];
      assert s[..j] == l;
      assert s[j + 1..] == JoinLines(ls[1..]);
      SplitJoin(ls[1..]);
    }
  }

  /** A join begins with its first line. */
  lemma {:induction false} JoinLinesFirst(ls: seq<string>)
    requires |ls| >= 1
    ensures |ls[0]| <= |JoinLines(ls)| && JoinLines(ls)[..|ls[0]|] == ls[0]
  {
    if |ls| > 1 {
      assert JoinLines(ls) == ls[0] + ("\n" + JoinLines(ls[1..]));
    }
  }

  /** `s.trimStart()`. */
  function TrimStart(s: string): (r: string)
    ensures |r| <= |s| && r == s[|s| - |r|..]
    ensures forall k :: 0 <= k < |s| - |r| ==> IsSpace(s[k])
    ensures r != [] ==> !IsSpace(r[0])
  {
    SpanFacts(s, 0, IsSpace);
    s[Span(s, 0, IsSpace)..]
  }

  /** `s.trimEnd()`. */
  function TrimEnd(s: string): (r: string)
    ensures |r| <= |s| && r == s[..|r|]
    ensures forall k :: |r| <= k < |s| ==> IsSpace(s[k])
    ensures r != [] ==> !IsSpace(r[|r| - 1])
    decreases |s|
  {
    if s != [] && IsSpace(s[|s| - 1]) then TrimEnd(s[..|s| - 1]) else s
  }

  /** `s.trim()`: the text between the leading and the trailing whitespace. */
  function Trim(s: string): (r: string)
    ensures r == [] <==> forall k :: 0 <= k < |s| ==> IsSpace(s[k])
    ensures r != [] ==> !IsSpace(r[0]) && !IsSpace(r[|r| - 1])
  {
    TrimEnd(TrimStart(s))
  }

  /** The trimmed text is a slice of the text, starting at offset i. */
  lemma TrimSlice(s: string) returns (i: nat)
    ensures i + |Trim(s)| <= |s| && Trim(s) == s[i..i + |Trim(s)|]
  {
    i := |s| - |TrimStart(s)|;
  }
}
